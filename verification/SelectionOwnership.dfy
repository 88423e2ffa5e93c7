/** Selection ownership in clipboard/manager.go: the timestamps kept on owner-change events and the
    test a conversion request must pass, compared with section 2.2 of the ICCCM. */
module SelectionOwnership {

  /** CurrentTime, "now" in a request. */
  const CURRENT_TIME: nat := 0

  /** An XFixes SetSelectionOwner event: did this manager become the owner, and when. */
  datatype Change = Change(mine: bool, time: nat)

  datatype Stamps = Stamps(acquired: nat, lost: nat)

  function Updated(s: Stamps, e: Change): Stamps {
    if e.mine then Stamps(e.time, 0)
    else if e.time >= s.acquired then s.(lost := e.time)
    else s
  }

  /** canConvertSelection. */
  predicate CanConvert(s: Stamps, t: nat) {
    if s.acquired == 0 then false
    else if s.lost == 0 then s.acquired <= t || t == CURRENT_TIME
    else t != CURRENT_TIME && s.acquired <= t < s.lost
  }

  /** The stamps of one selection, CLIPBOARD or CLIPBOARD_MANAGER, as handleEvent keeps them. */
  class Selection {
    var acquired: nat
    var lost: nat
    ghost var history: seq<Change>

    ghost predicate Valid()
      reads this
    {
      Stamps(acquired, lost) == StampsAfter(history)
    }

    constructor ()
      ensures Valid() && history == []
    {
      acquired, lost, history := 0, 0, [];
    }

    method HandleOwnerChange(e: Change)
      requires Valid()
      modifies this
      ensures Valid() && history == old(history) + [e]
    {
      if e.mine {
        acquired := e.time;
        lost := 0;
      } else if e.time >= acquired {
        lost := e.time;
      }
      history := history + [e];
      assert history[..|history| - 1] == old(history);
    }

    /** Under a well-behaved server a request passes by the rule of RequestRule. */
    method CanConvertSelection(t: nat) returns (ok: bool)
      requires Valid()
      ensures ok <==> CanConvert(StampsAfter(history), t)
    {
      if acquired == 0 {
        return false;
      }
      if lost == 0 {
        if acquired <= t || t == 0 {
          return true;
        }
      } else {
        if t == 0 {
          return false;
        }
        if acquired <= t && t < lost {
          return true;
        }
      }
      return false;
    }
  }

  ghost function StampsAfter(h: seq<Change>): Stamps {
    if h == [] then Stamps(0, 0) else Updated(StampsAfter(h[..|h| - 1]), h[|h| - 1])
  }

  /** Server time never runs backwards and is never the CurrentTime constant. */
  ghost predicate Timely(h: seq<Change>) {
    && (forall i :: 0 <= i < |h| ==> h[i].time != CURRENT_TIME)
    && (forall i, j :: 0 <= i < j < |h| ==> h[i].time <= h[j].time)
  }

  /** Index of the change that made this manager the owner most recently, or -1. */
  ghost function LastMine(h: seq<Change>): (k: int)
    ensures -1 <= k < |h|
    ensures k >= 0 ==> h[k].mine
    ensures forall i :: k < i < |h| ==> !h[i].mine
  {
    if h == [] then -1
    else if h[|h| - 1].mine then |h| - 1
    else LastMine(h[..|h| - 1])
  }

  /** This manager owns the selection now. */
  ghost predicate OwnsNow(h: seq<Change>) {
    h != [] && h[|h| - 1].mine
  }

  /** Time t lies in this manager's latest ownership period: from acquiring to the first change after it. */
  ghost predicate OwnedAt(h: seq<Change>, t: nat) {
    var k := LastMine(h);
    k >= 0 && h[k].time <= t && (k + 1 < |h| ==> t < h[k + 1].time)
  }

  /** One owner change, timely or not: taking over sets one stamp and clears the other; a foreign change sets
      the other unless it is older than the manager's own. */
  lemma UpdatedExactly(s: Stamps, e: Change)
    ensures var t := Updated(s, e);
            && (e.mine ==> t.acquired == e.time && t.lost == 0)
            && (!e.mine ==> t.acquired == s.acquired && t.lost == if e.time < s.acquired then s.lost else e.time)
  {
  }

  /** What the two stamps mean, for every history. */
  lemma {:induction false} StampsMean(h: seq<Change>)
    requires Timely(h)
    ensures var k := LastMine(h);
            StampsAfter(h)
            == Stamps(if k < 0 then 0 else h[k].time, if h == [] || OwnsNow(h) then 0 else h[|h| - 1].time)
  {
    if h != [] {
      StampsMean(h[..|h| - 1]);
    }
  }

  /** A CurrentTime request passes exactly when this manager is the present owner; a request at time t
      passes exactly from the latest acquisition up to the latest foreign change. */
  lemma RequestRule(h: seq<Change>, t: nat)
    requires Timely(h)
    ensures CanConvert(StampsAfter(h), CURRENT_TIME) <==> OwnsNow(h)
    ensures t != CURRENT_TIME ==>
              (CanConvert(StampsAfter(h), t) <==>
               LastMine(h) >= 0 && h[LastMine(h)].time <= t && (!OwnsNow(h) ==> t < h[|h| - 1].time))
  {
    StampsMean(h);
  }

  /** No request inside the latest ownership period is refused. The converse fails exactly between the
      first and the latest foreign change, because every later foreign owner moves the lost stamp. */
  lemma AcceptanceGap(h: seq<Change>, t: nat)
    requires Timely(h) && t != CURRENT_TIME
    ensures OwnedAt(h, t) ==> CanConvert(StampsAfter(h), t)
    ensures var k := LastMine(h);
            CanConvert(StampsAfter(h), t) && !OwnedAt(h, t) <==>
            k >= 0 && k + 1 < |h| && h[k + 1].time <= t < h[|h| - 1].time
  {
    RequestRule(h, t);
  }

  /** Acquired at 10, lost at 20, taken over again at 30: a request at 25 passes though the manager did not own then. */
  lemma AcceptsAfterLoss(h: seq<Change>)
    requires h == [Change(true, 10), Change(false, 20), Change(false, 30)]
    ensures CanConvert(StampsAfter(h), 25) && !OwnedAt(h, 25)
  {
    assert h[0].mine && !h[1].mine && !h[2].mine;
    assert LastMine(h) == 0;
    AcceptanceGap(h, 25);
  }
}

/** clipboard/event_captor.go: hooks wait in registration order; an event goes to the first hook whose
    condition it meets. */
module EventCaptors {

  /** The fields the conditions in clipboard/manager.go look at. */
  datatype Event =
    | PropertyNotify(window: int, atom: int, deleted: bool)
    | SelectionNotify(selection: int, requestor: int, target: int)

  /** A registered wait: when it was registered and which event it waits for. */
  datatype Hook = Hook(id: nat, time: int, wanted: Event)

  /** hookExpires, in seconds. */
  const HOOK_EXPIRES: int := 11

  class EventCaptor {
    var hooks: seq<Hook>
    var nextId: nat

    ghost predicate Valid()
      reads this
    {
      InOrder(hooks, nextId)
    }

    constructor ()
      ensures Valid() && hooks == []
    {
      hooks, nextId := [], 0;
    }

    /** captureEvent up to the point where the triggering action starts: the hook is already listed. */
    method Register(now: int, wanted: Event) returns (id: nat)
      requires Valid()
      modifies this
      ensures Valid()
      ensures hooks == old(hooks) + [Hook(id, now, wanted)]
      ensures forall i :: 0 <= i < |old(hooks)| ==> old(hooks)[i].id != id
    {
      id := nextId;
      hooks := hooks + [Hook(id, now, wanted)];
      nextId := nextId + 1;
    }

    /** handleEvent: the oldest matching hook takes the event and leaves; every other hook stays. */
    method HandleEvent(event: Event) returns (taken: int)
      requires Valid()
      modifies this`hooks
      ensures Valid()
      ensures -1 <= taken < |old(hooks)|
      ensures taken < 0 <==> forall i :: 0 <= i < |old(hooks)| ==> old(hooks)[i].wanted != event
      ensures taken < 0 ==> hooks == old(hooks)
      ensures taken >= 0 ==>
                && old(hooks)[taken].wanted == event
                && (forall i :: 0 <= i < taken ==> old(hooks)[i].wanted != event)
                && hooks == old(hooks)[..taken] + old(hooks)[taken + 1..]
    {
      taken := 0;
      while taken < |hooks|
        invariant 0 <= taken <= |hooks|
        invariant forall i :: 0 <= i < taken ==> hooks[i].wanted != event
      {
        if hooks[taken].wanted == event {
          break;
        }
        taken := taken + 1;
      }
      if taken == |hooks| {
        return -1;
      }
      hooks := hooks[..taken] + hooks[taken + 1..];
    }

    /** One tick of loopCheck: exactly the hooks older than HOOK_EXPIRES are closed and dropped, the
        others keep their order. */
    method Expire(now: int) returns (expired: seq<Hook>)
      requires Valid()
      modifies this`hooks
      ensures Valid()
      ensures hooks == Fresh(old(hooks), now)
      ensures |hooks| + |expired| == |old(hooks)|
      ensures forall i :: 0 <= i < |expired| ==> expired[i] in old(hooks) && now - expired[i].time > HOOK_EXPIRES
    {
      expired := [];
      var kept: seq<Hook> := [];
      var i := 0;
      while i < |hooks|
        invariant 0 <= i <= |hooks|
        invariant hooks == old(hooks)
        invariant kept + Fresh(hooks[i..], now) == Fresh(hooks, now)
        invariant |kept| + |expired| == i
        invariant forall k :: 0 <= k < |expired| ==> expired[k] in hooks && now - expired[k].time > HOOK_EXPIRES
      {
        if now - hooks[i].time > HOOK_EXPIRES {
          expired := expired + [hooks[i]];
        } else {
          kept := kept + [hooks[i]];
        }
        i := i + 1;
      }
      assert kept == Fresh(hooks, now);
      FreshInOrder(hooks, now, nextId);
      hooks := kept;
    }
  }

  function Fresh(hooks: seq<Hook>, now: int): seq<Hook> {
    if hooks == [] then []
    else if now - hooks[0].time > HOOK_EXPIRES then Fresh(hooks[1..], now)
    else [hooks[0]] + Fresh(hooks[1..], now)
  }

  /** Ids were handed out below the bound and grow along the list. */
  ghost predicate InOrder(hooks: seq<Hook>, bound: nat) {
    && (forall i :: 0 <= i < |hooks| ==> hooks[i].id < bound)
    && (forall i, j :: 0 <= i < j < |hooks| ==> hooks[i].id < hooks[j].id)
  }

  lemma {:induction false} FreshInOrder(hooks: seq<Hook>, now: int, bound: nat)
    requires InOrder(hooks, bound)
    ensures InOrder(Fresh(hooks, now), bound)
    ensures forall h :: h in Fresh(hooks, now) <==> h in hooks && now - h.time <= 11
  {
    if hooks != [] {
      FreshInOrder(hooks[1..], now, bound);
      var r, f := Fresh(hooks[1..], now), Fresh(hooks, now);
      assert hooks == [hooks[0]] + hooks[1..];
      forall i | 0 <= i < |r| ensures hooks[0].id < r[i].id {
        assert r[i] in r;
        assert r[i] in hooks[1..];
      }
      if f != r {
        assert f == [hooks[0]] + r;
        assert forall i :: 0 < i < |f| ==> f[i] == r[i - 1];
      }
    }
  }
}
