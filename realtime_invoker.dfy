/**
 * The delayed-call queue of Other/RealTimeInvoker.cs: calls scheduled
 * against the real-time clock, independent of the game's time scale. The
 * clock is an input (`now`), an action is an identifier, and an Update
 * returns the actions it fires, in the order it fires them.
 */
module RealTimeInvoker {
  import opened Results

  /** Identifies a scheduled `System.Action`. */
  type ActionId = nat

  /** One scheduled call: the action and the clock reading from which it is due. */
  datatype InvokerInfo = InvokerInfo(action: ActionId, invokeTime: real)

  /** A negative delay counts as no delay. */
  function ClampDelay(delay: real): (r: real)
    ensures r >= 0.0 && r >= delay
    ensures r == delay || r == 0.0
  {
    if delay < 0.0 then 0.0 else delay
  }

  /** Update fires an entry once the clock has reached its invoke time. */
  predicate IsDue(info: InvokerInfo, now: real)
  {
    now >= info.invokeTime
  }

  /** The entries of `s` that are due at `now`, in list order. */
  function Due(s: seq<InvokerInfo>, now: real): (r: seq<InvokerInfo>)
    ensures |r| <= |s|
  {
    if s == [] then []
    else (if IsDue(s[0], now) then [s[0]] else []) + Due(s[1..], now)
  }

  /** The entries of `s` that are not yet due at `now`, in list order. */
  function Pending(s: seq<InvokerInfo>, now: real): (r: seq<InvokerInfo>)
    ensures |r| <= |s|
  {
    if s == [] then []
    else (if IsDue(s[0], now) then [] else [s[0]]) + Pending(s[1..], now)
  }

  /** Update fires exactly the due entries and keeps exactly the others. */
  lemma {:induction false} FilterMembership(s: seq<InvokerInfo>, now: real, e: InvokerInfo)
    ensures e in Due(s, now) <==> e in s && IsDue(e, now)
    ensures e in Pending(s, now) <==> e in s && !IsDue(e, now)
  {
    if s != [] {
      FilterMembership(s[1..], now, e);
      assert e in s <==> e == s[0] || e in s[1..];
    }
  }

  /** The actions of a list of entries, in order. */
  function Actions(s: seq<InvokerInfo>): (r: seq<ActionId>)
    ensures |r| == |s|
    ensures forall i :: 0 <= i < |s| ==> r[i] == s[i].action
  {
    if s == [] then [] else [s[0].action] + Actions(s[1..])
  }

  /** Filtering a list that grew by one entry at the end. */
  lemma {:induction false} FilterAppend(s: seq<InvokerInfo>, x: InvokerInfo, now: real)
    ensures Due(s + [x], now) == Due(s, now) + (if IsDue(x, now) then [x] else [])
    ensures Pending(s + [x], now) == Pending(s, now) + (if IsDue(x, now) then [] else [x])
  {
    if s != [] {
      assert (s + [x])[1..] == s[1..] + [x];
      FilterAppend(s[1..], x, now);
    }
  }

  lemma {:induction false} ActionsAppend(s: seq<InvokerInfo>, x: InvokerInfo)
    ensures Actions(s + [x]) == Actions(s) + [x.action]
  {
    if s != [] {
      assert (s + [x])[1..] == s[1..] + [x];
      ActionsAppend(s[1..], x);
    }
  }

  /** Every entry is either fired or kept: the two filters split the list. */
  lemma {:induction false} DueAndPendingPartition(s: seq<InvokerInfo>, now: real)
    ensures |Due(s, now)| + |Pending(s, now)| == |s|
    ensures multiset(Due(s, now)) + multiset(Pending(s, now)) == multiset(s)
  {
    if s != [] {
      DueAndPendingPartition(s[1..], now);
      assert s == [s[0]] + s[1..];
    }
  }

  /** After an Update no entry left in the list is due. */
  lemma {:induction false} PendingNotDue(s: seq<InvokerInfo>, now: real)
    ensures forall i :: 0 <= i < |Pending(s, now)| ==> now < Pending(s, now)[i].invokeTime
  {
    if s != [] {
      PendingNotDue(s[1..], now);
    }
  }

  /** A second Update at the same time fires nothing and keeps the list. */
  lemma {:induction false} UpdateIsIdempotent(s: seq<InvokerInfo>, now: real)
    ensures Due(Pending(s, now), now) == []
    ensures Pending(Pending(s, now), now) == Pending(s, now)
  {
    if s != [] {
      UpdateIsIdempotent(s[1..], now);
      var rest := Pending(s[1..], now);
      if IsDue(s[0], now) {
        assert Pending(s, now) == rest;
      } else {
        assert Pending(s, now) == [s[0]] + rest;
        assert ([s[0]] + rest)[1..] == rest;
      }
    }
  }

  /** When nothing is due, Update keeps the whole list. */
  lemma {:induction false} NothingDueKeepsAll(s: seq<InvokerInfo>, now: real)
    requires forall i :: 0 <= i < |s| ==> now < s[i].invokeTime
    ensures Due(s, now) == [] && Pending(s, now) == s
  {
    if s != [] {
      NothingDueKeepsAll(s[1..], now);
    }
  }

  /**
   * An entry scheduled at `now` with `delay` is fired by the first Update
   * whose clock reading is at least now + max(delay, 0), after every entry
   * before it in the list that is due then.
   */
  lemma ScheduledEntryFiresWhenDue(s: seq<InvokerInfo>, a: ActionId, delay: real, now: real, later: real)
    ensures var e := InvokerInfo(a, now + ClampDelay(delay));
      Due(s + [e], later) == Due(s, later) + (if later >= now + ClampDelay(delay) then [e] else [])
    ensures later < now ==> !IsDue(InvokerInfo(a, now + ClampDelay(delay)), later)
  {
    FilterAppend(s, InvokerInfo(a, now + ClampDelay(delay)), later);
  }

  /**
   * One iteration of Update's loop, on values: `list` is the kept part of the
   * first `seen` entries followed by the unexamined rest, and index `i` points
   * at the first unexamined entry.
   */
  lemma UpdateStep(original: seq<InvokerInfo>, seen: nat, now: real, list: seq<InvokerInfo>, i: nat)
    requires seen < |original|
    requires list == Pending(original[..seen], now) + original[seen..]
    requires i == |Pending(original[..seen], now)|
    ensures i < |list| && list[i] == original[seen]
    ensures IsDue(list[i], now) ==>
      list[..i] + list[i + 1..] == Pending(original[..seen + 1], now) + original[seen + 1..] &&
      i == |Pending(original[..seen + 1], now)| &&
      Actions(Due(original[..seen + 1], now)) == Actions(Due(original[..seen], now)) + [list[i].action]
    ensures !IsDue(list[i], now) ==>
      list == Pending(original[..seen + 1], now) + original[seen + 1..] &&
      i + 1 == |Pending(original[..seen + 1], now)| &&
      Due(original[..seen + 1], now) == Due(original[..seen], now)
  {
    var kept, x := Pending(original[..seen], now), original[seen];
    assert original[seen..] == [x] + original[seen + 1..];
    assert original[..seen + 1] == original[..seen] + [x];
    FilterAppend(original[..seen], x, now);
    if IsDue(x, now) {
      ActionsAppend(Due(original[..seen], now), x);
      assert list[..i] + list[i + 1..] == kept + original[seen + 1..];
    }
  }

  /** The RealTimeInvoker component: its clock reading and its list of scheduled calls. */
  class Invoker {
    var realTime: real
    var infoList: seq<InvokerInfo>

    constructor ()
      ensures realTime == 0.0 && infoList == []
    {
      realTime := 0.0;
      infoList := [];
    }

    /** Schedules `action` after `delay` (clamped at 0); a null action schedules nothing. */
    method InvokeDelay(action: Option<ActionId>, delay: real, now: real)
      modifies this
      ensures realTime == old(realTime)
      ensures infoList == old(infoList) +
        (if action.Some? then [InvokerInfo(action.value, now + ClampDelay(delay))] else [])
    {
      if action.Some? {
        InternalInvokeDelay(action.value, delay, now);
      }
    }

    /** Appends one entry, due at now + max(delay, 0), at the end of the list. */
    method InternalInvokeDelay(action: ActionId, delay: real, now: real)
      modifies this
      ensures realTime == old(realTime)
      ensures infoList == old(infoList) + [InvokerInfo(action, now + ClampDelay(delay))]
    {
      var d := delay;
      if d < 0.0 {
        d := 0.0;
      }
      infoList := infoList + [InvokerInfo(action, now + d)];
    }

    /**
     * Records the clock, then walks the list with an index: a due entry is
     * fired and removed in place, any other entry is stepped over.
     */
    method Update(now: real) returns (fired: seq<ActionId>)
      modifies this
      ensures realTime == now
      ensures fired == Actions(Due(old(infoList), now))
      ensures infoList == Pending(old(infoList), now)
    {
      realTime := now;
      fired := [];
      if |infoList| > 0 {
        ghost var original := infoList;
        ghost var seen := 0;
        var i := 0;
        while i < |infoList|
          invariant realTime == now
          invariant 0 <= seen <= |original|
          invariant infoList == Pending(original[..seen], now) + original[seen..]
          invariant i == |Pending(original[..seen], now)|
          invariant fired == Actions(Due(original[..seen], now))
          invariant |infoList| - i == |original| - seen
          decreases |infoList| - i
        {
          var info := infoList[i];
          UpdateStep(original, seen, now, infoList, i);
          if realTime >= info.invokeTime {
            fired := fired + [info.action];
            infoList := infoList[..i] + infoList[i + 1..];
          } else {
            i := i + 1;
          }
          seen := seen + 1;
        }
        assert seen == |original| && original[..seen] == original;
        assert infoList == Pending(original, now);
      }
    }

    /** Forgets every scheduled call. */
    method OnDestroy()
      modifies this
      ensures realTime == old(realTime) && infoList == []
    {
      infoList := [];
    }
  }
}
