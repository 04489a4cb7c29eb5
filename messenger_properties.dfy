/**
 * What the event bus promises, stated over the table as a value: the guard
 * and update rules of AddListener, RemoveListener and Broadcast, the table
 * invariant, and how the operations combine.
 */
module MessengerProperties {
  import opened Results
  import opened Callback
  import opened Messenger

  // ---- Delegate subtraction -------------------------------------------------

  /** Removing position k of a sequence removes exactly one copy of its element. */
  lemma {:induction false} RemoveAtMultiset(hs: seq<HandlerId>, k: nat)
    requires k < |hs|
    ensures multiset(hs[..k] + hs[k + 1..]) == multiset(hs) - multiset{hs[k]}
  {
    assert hs == hs[..k] + [hs[k]] + hs[k + 1..];
    assert multiset(hs) == multiset(hs[..k]) + multiset{hs[k]} + multiset(hs[k + 1..]);
  }

  /** `d - h` removes one occurrence of h (the last), and keeps the others in order. */
  lemma MinusRemovesLastOccurrence(s: Signature, hs: seq<HandlerId>, x: HandlerId)
    requires x in hs
    ensures var k := LastIndexOf(hs, x);
      0 <= k < |hs| && hs[k] == x && x !in hs[k + 1..] &&
      Chain(s, hs).Minus(x) == (if |hs| == 1 then Null else Chain(s, hs[..k] + hs[k + 1..]))
    ensures Chain(s, hs).Minus(x).Chain? ==>
      multiset(Chain(s, hs).Minus(x).handlers) == multiset(hs) - multiset{x}
  {
    var k := LastIndexOf(hs, x);
    if |hs| > 1 {
      RemoveAtMultiset(hs, k);
    }
  }

  /** `d - h` leaves the delegate unchanged exactly when it is null or h does not occur in it. */
  lemma MinusAbsentIsIdentity(d: Delegate, x: HandlerId)
    ensures d.Minus(x) == d <==> d.Null? || x !in d.handlers
  {
  }

  /** `(d + h) - h` is d again: the handler just added is the last occurrence. */
  lemma PlusThenMinus(d: Delegate, h: Handler)
    requires d.Null? || (d.sig == h.sig && d.handlers != [])
    ensures d.Plus(h).Minus(h.id) == d
  {
  }

  // ---- AddListener ------------------------------------------------------------

  /** Adding under a name not in the table creates the entry [h] with h's signature. */
  lemma AddToUnknownName(t: Table, name: string, h: Handler)
    requires name !in t
    ensures Subscribe(t, name, h) == Success(t[name := Chain(h.sig, [h.id])])
    ensures Subscribe(t, name, h).value.Keys == t.Keys + {name}
  {
  }

  /** Adding with a signature other than the chain's fails and changes nothing. */
  lemma AddWithOtherSignatureFails(t: Table, name: string, h: Handler)
    requires name in t && t[name].Chain? && t[name].sig != h.sig
    ensures Subscribe(t, name, h) == Failure(ListenerException(AddSignatureMismatch))
  {
  }

  /** Adding with the chain's signature appends h last; no other name changes. */
  lemma AddAppends(t: Table, name: string, h: Handler)
    requires name in t && t[name].Chain? && t[name].sig == h.sig
    ensures Subscribe(t, name, h).Success?
    ensures var t' := Subscribe(t, name, h).value;
      t'.Keys == t.Keys &&
      t'[name] == Chain(h.sig, t[name].handlers + [h.id]) &&
      forall n :: n in t && n != name ==> t'[n] == t[n]
  {
  }

  /**
   * On a well-formed table, AddListener of h fails exactly when a Broadcast of
   * h's signature under the same name fails with the signature error, in
   * either mode: both sides reject the same stored chains.
   */
  lemma AddFailsIffBroadcastMismatches(t: Table, name: string, h: Handler, args: seq<Arg>, mode: MessengerMode)
    requires WellFormed(t) && |args| == |h.sig|
    ensures Subscribe(t, name, h).Failure? <==>
      Dispatch(t, name, h.sig, args, mode) == Failure(BroadcastException(BroadcastSignatureMismatch))
  {
  }

  lemma AddPreservesWellFormed(t: Table, name: string, h: Handler)
    requires WellFormed(t)
    ensures Subscribe(t, name, h).Success? ==> WellFormed(Subscribe(t, name, h).value)
  {
  }

  // ---- RemoveListener ---------------------------------------------------------

  /** Removing under a name the table does not know fails and changes nothing. */
  lemma RemoveFromUnknownNameFails(t: Table, name: string, h: Handler)
    requires name !in t
    ensures Unsubscribe(t, name, h) == Failure(ListenerException(UnknownEventType))
  {
  }

  /** Removing with a signature other than the chain's fails and changes nothing. */
  lemma RemoveWithOtherSignatureFails(t: Table, name: string, h: Handler)
    requires name in t && t[name].Chain? && t[name].sig != h.sig
    ensures Unsubscribe(t, name, h) == Failure(ListenerException(RemoveSignatureMismatch))
  {
  }

  /** In a well-formed table the null-listener error of RemoveListener cannot occur. */
  lemma NullListenerUnreachable(t: Table, name: string, h: Handler)
    requires WellFormed(t)
    ensures Unsubscribe(t, name, h) != Failure(ListenerException(NullListener))
    ensures Unsubscribe(t, name, h).Failure? <==>
      name !in t || t[name].sig != h.sig
  {
  }

  /** Removing a handler that is not in the chain is not an error and changes nothing. */
  lemma RemoveAbsentHandlerKeepsTable(t: Table, name: string, h: Handler)
    requires WellFormed(t)
    requires name in t && t[name].sig == h.sig && h.id !in t[name].handlers
    ensures Unsubscribe(t, name, h) == Success(t)
  {
    assert t[name := t[name]] == t;
  }

  /**
   * Removing a handler that is in the chain removes its last occurrence and
   * keeps the other entries in registration order; the name leaves the table
   * exactly when that was the chain's only entry, and no other name changes.
   */
  lemma RemoveOneOccurrence(t: Table, name: string, h: Handler)
    requires WellFormed(t)
    requires name in t && t[name].sig == h.sig && h.id in t[name].handlers
    ensures Unsubscribe(t, name, h).Success?
    ensures var t' := Unsubscribe(t, name, h).value;
      var hs := t[name].handlers;
      var k := LastIndexOf(hs, h.id);
      (name !in t' <==> hs == [h.id]) &&
      (name in t' ==> t'[name] == Chain(h.sig, hs[..k] + hs[k + 1..]) &&
                      multiset(t'[name].handlers) == multiset(hs) - multiset{h.id}) &&
      t'.Keys - {name} == t.Keys - {name} &&
      forall n :: n in t && n != name ==> t'[n] == t[n]
  {
    var hs := t[name].handlers;
    MinusRemovesLastOccurrence(t[name].sig, hs, h.id);
    if |hs| == 1 {
      assert hs == [h.id];
    } else {
      assert hs != [h.id];
    }
  }

  lemma RemovePreservesWellFormed(t: Table, name: string, h: Handler)
    requires WellFormed(t)
    ensures Unsubscribe(t, name, h).Success? ==> WellFormed(Unsubscribe(t, name, h).value)
  {
  }

  /** RemoveListener undoes AddListener of the same handler. */
  lemma AddThenRemoveRestores(t: Table, name: string, h: Handler)
    requires WellFormed(t)
    requires Subscribe(t, name, h).Success?
    ensures Unsubscribe(Subscribe(t, name, h).value, name, h) == Success(t)
  {
    var t1 := Subscribe(t, name, h).value;
    var d := if name in t then t[name] else Null;
    PlusThenMinus(d, h);
    if name in t {
      assert t1[name := d] == t;
    } else {
      assert t1 - {name} == t;
    }
  }

  /**
   * Once the last listener of a name is removed, the entry is gone, so a
   * listener of any signature can be added under that name again.
   */
  lemma ReAddAfterLastRemoval(t: Table, name: string, h: Handler, h': Handler)
    requires Unsubscribe(t, name, h).Success? && name !in Unsubscribe(t, name, h).value
    ensures Subscribe(Unsubscribe(t, name, h).value, name, h').Success?
  {
  }

  // ---- Broadcast --------------------------------------------------------------

  /** With nobody listening, REQUIRE_LISTENER fails and DONT_REQUIRE_LISTENER invokes nothing. */
  lemma BroadcastToUnknownName(t: Table, name: string, sig: Signature, args: seq<Arg>)
    requires |args| == |sig| && name !in t
    ensures Dispatch(t, name, sig, args, RequireListener) == Failure(BroadcastException(NoListener))
    ensures Dispatch(t, name, sig, args, DontRequireListener) == Success([])
    ensures Dispatch(t, name, sig, args, DefaultMode) == Success([])
  {
  }

  /** Broadcasting with a signature other than the chain's fails in either mode. */
  lemma BroadcastWithOtherSignatureFails(t: Table, name: string, sig: Signature, args: seq<Arg>,
                                         mode: MessengerMode)
    requires |args| == |sig| && name in t && t[name].Chain? && t[name].sig != sig
    ensures Dispatch(t, name, sig, args, mode) == Failure(BroadcastException(BroadcastSignatureMismatch))
  {
  }

  /** A matching broadcast invokes every entry of the chain, in order, with the same arguments. */
  lemma BroadcastInvokesChainInOrder(t: Table, name: string, sig: Signature, args: seq<Arg>,
                                     mode: MessengerMode)
    requires |args| == |sig| && name in t && t[name].Chain? && t[name].sig == sig
    ensures Dispatch(t, name, sig, args, mode).Success?
    ensures var r := Dispatch(t, name, sig, args, mode).value;
      |r| == |t[name].handlers| &&
      forall i :: 0 <= i < |r| ==> r[i].handler == t[name].handlers[i] && r[i].args == args
  {
  }

  /** Broadcast succeeds exactly when the name is absent and allowed to be, or has a matching chain. */
  lemma BroadcastSucceedsIff(t: Table, name: string, sig: Signature, args: seq<Arg>, mode: MessengerMode)
    requires |args| == |sig| && WellFormed(t)
    ensures Dispatch(t, name, sig, args, mode).Success? <==>
      (name !in t && mode == DontRequireListener) || (name in t && t[name].sig == sig)
  {
  }

  /**
   * Two listeners of one signature added under a fresh name are both invoked
   * by a broadcast, in the order they were added.
   */
  lemma TwoListenersInRegistrationOrder(t: Table, name: string, f: Handler, g: Handler, args: seq<Arg>,
                                        mode: MessengerMode)
    requires name !in t && f.sig == g.sig && |args| == |f.sig|
    ensures Subscribe(t, name, f).Success?
    ensures Subscribe(Subscribe(t, name, f).value, name, g).Success?
    ensures Dispatch(Subscribe(Subscribe(t, name, f).value, name, g).value, name, f.sig, args, mode)
      == Success([Invocation(f.id, args), Invocation(g.id, args)])
  {
    var t1 := Subscribe(t, name, f).value;
    var t2 := Subscribe(t1, name, g).value;
    assert t2[name] == Chain(f.sig, [f.id, g.id]);
    var r := Invocations([f.id, g.id], args);
    assert r == [Invocation(f.id, args), Invocation(g.id, args)];
    assert Dispatch(t2, name, f.sig, args, mode) == Success(r);
  }
}
