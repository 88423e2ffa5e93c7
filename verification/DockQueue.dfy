/** The asynchronous window queue: client-list changes push closures that another goroutine runs later,
    interleaved with everything else. Once nothing is queued for a window, it is on the dock exactly when
    it is in the client list. */
module DockQueue {
  import opened Collections
  import opened WindowSlice
  import opened DockEntries
  import opened DockModel
  import opened DockInvariant

  /** The last queued operation for a window. */
  function LastFor(queue: seq<Task>, w: Window): (r: Option<Task>)
    ensures r.Some? ==> r.value.win == w
  {
    if queue == [] then None
    else if queue[|queue| - 1].win == w then Some(queue[|queue| - 1])
    else LastFor(queue[..|queue| - 1], w)
  }

  /** The last queued operation for a window, if any, is an add exactly when the window is in the client list. */
  ghost predicate TaskMatches(s: State, w: Window) {
    match LastFor(s.queue, w)
    case None => true
    case Some(AddWin(_)) => w in s.clients
    case Some(RemoveWin(_)) => w !in s.clients
  }

  lemma {:induction false} LastForConcat(q: seq<Task>, t: seq<Task>, w: Window)
    ensures LastFor(q + t, w) == if LastFor(t, w).Some? then LastFor(t, w) else LastFor(q, w)
  {
    if t == [] {
      assert q + t == q;
    } else {
      assert (q + t)[..|q + t| - 1] == q + t[..|t| - 1];
      LastForConcat(q, t[..|t| - 1], w);
    }
  }

  lemma LastForTail(q: seq<Task>, w: Window)
    requires q != []
    ensures LastFor(q, w) == if LastFor(q[1..], w).Some? then LastFor(q[1..], w)
                             else if q[0].win == w then Some(q[0]) else None
  {
    assert q == [q[0]] + q[1..];
    LastForConcat([q[0]], q[1..], w);
    assert [q[0]][..0] == [];
  }

  lemma {:induction false} LastForNone(q: seq<Task>, w: Window)
    ensures LastFor(q, w) == None <==> forall i :: 0 <= i < |q| ==> q[i].win != w
  {
    if q != [] {
      LastForNone(q[..|q| - 1], w);
    }
  }

  lemma LastForTasks(add: seq<Window>, remove: seq<Window>, w: Window)
    ensures LastFor(Tasks(add, remove), w) ==
            if w in remove then Some(RemoveWin(w)) else if w in add then Some(AddWin(w)) else None
  {
    var a := seq(|add|, i requires 0 <= i < |add| => AddWin(add[i]));
    var r := seq(|remove|, i requires 0 <= i < |remove| => RemoveWin(remove[i]));
    LastForConcat(a, r, w);
    AllOf(a, w);
    AllOf(r, w);
    LastForNone(a, w);
    LastForNone(r, w);
    if w in add {
      var i :| 0 <= i < |add| && add[i] == w;
      assert a[i].win == w;
    }
    if w in remove {
      var i :| 0 <= i < |remove| && remove[i] == w;
      assert r[i].win == w;
    }
  }

  lemma {:induction false} AllOf(q: seq<Task>, w: Window)
    ensures LastFor(q, w).Some? ==> LastFor(q, w).value in q
  {
    if q != [] {
      AllOf(q[..|q| - 1], w);
    }
  }

  // ---- what a client-list change does to the queue ----

  /** The window stays in the list but occurs less often than before. */
  ghost predicate Thins(a: seq<Window>, b: seq<Window>, w: Window) {
    0 < multiset(b)[w] < multiset(a)[w]
  }

  /** A client-list change keeps the last queued operation truthful for a window exactly when the window
      does not merely become rarer: that queues a removal although it is still listed. */
  lemma ClientListExactly(dirs: Dirs, s: State, list: seq<Window>, w: Window)
    requires Sorted(s.clients) && Sorted(list) && TaskMatches(s, w)
    ensures TaskMatches(Step(dirs, s, ClientList(list)), w) <==> !Thins(s.clients, list, w)
  {
    var (add, remove) := Diff(s.clients, list);
    DiffIsExact(s.clients, list);
    LastForTasks(add, remove, w);
    LastForConcat(s.queue, Tasks(add, remove), w);
    assert w in list <==> w in multiset(list);
    assert w in s.clients <==> w in multiset(s.clients);
    assert w in add <==> w in multiset(add);
    assert w in remove <==> w in multiset(remove);
  }

  /** The client list comes sorted, and does not name the window less often than before yet still. */
  ghost predicate Unthinned(s: State, e: Event, w: Window) {
    e.ClientList? ==> Sorted(e.list) && !Thins(s.clients, e.list, w)
  }

  ghost predicate QueueOk(s: State, w: Window) {
    Sorted(s.clients) && TaskMatches(s, w)
  }

  lemma DetachFrame(s: State, w: Window, pick: Window)
    ensures DetachWindow(s, w, pick).clients == s.clients && DetachWindow(s, w, pick).queue == s.queue
  {
  }

  lemma AttachOrDetachFrame(s: State, w: Window, look: Look)
    requires w in s.infos
    ensures AttachOrDetach(s, w, look).clients == s.clients && AttachOrDetach(s, w, look).queue == s.queue
  {
    DetachFrame(s, w, look.pick);
  }

  lemma TaskFrame(s: State, task: Task, look: Look)
    ensures RunTask(s, task, look).clients == s.clients && RunTask(s, task, look).queue == s.queue
  {
    DetachFrame(s, task.win, look.pick);
    if task.AddWin? {
      AttachOrDetachFrame(Register(s, task.win), task.win, look);
    }
  }

  lemma StepFrame(dirs: Dirs, s: State, e: Event)
    requires !e.ClientList?
    ensures Step(dirs, s, e).clients == s.clients
    ensures Step(dirs, s, e).queue == if e.Pop? && s.queue != [] then s.queue[1..] else s.queue
  {
    match e {
      case Pop(look) =>
        if s.queue != [] {
          TaskFrame(s.(queue := s.queue[1..]), s.queue[0], look);
        }
      case Property(w, idChanged, need, look) =>
        DetachFrame(s, w, look.pick);
        var t := if idChanged then Forget(DetachWindow(s, w, look.pick), w) else s;
        if w in t.infos {
          AttachOrDetachFrame(t, w, look);
        }
      case Destroy(w, pick) => DetachFrame(s, w, pick);
      case _ =>
    }
  }

  lemma StepKeepsQueue(dirs: Dirs, s: State, e: Event, w: Window)
    requires QueueOk(s, w) && Unthinned(s, e, w)
    ensures QueueOk(Step(dirs, s, e), w)
  {
    if e.ClientList? {
      ClientListExactly(dirs, s, e.list, w);
    } else {
      StepFrame(dirs, s, e);
      if e.Pop? && s.queue != [] {
        LastForTail(s.queue, w);
      }
    }
  }

  // ---- once a window's operations have run ----

  /** With nothing queued for it, the window is attached exactly when it is in the client list; and its own
      export has not failed. */
  ghost predicate Settled(s: State, w: Window) {
    !Stray(s, w) && (LastFor(s.queue, w) == None ==> (Attached(s, w) <==> w in s.clients))
  }

  ghost predicate Showable(look: Look) {
    look.reached && Shows(look)
  }

  /** The window stays alive, and whenever it is looked at it can be identified, shown and exported. */
  ghost predicate Live(s: State, e: Event, w: Window) {
    match e
    case Destroy(x, _) => x != w
    case Pop(look) => s.queue != [] && s.queue[0] == AddWin(w) ==> Showable(look)
    case Property(x, _, _, look) => x == w ==> Showable(look)
    case _ => true
  }

  /** Running the last queued operation for a window settles it, whatever happened to it before. */
  lemma PopSettles(dirs: Dirs, s: State, look: Look, w: Window)
    requires Core(s) && QueueOk(s, w) && !Stray(s, w)
    requires s.queue != [] && s.queue[0].win == w && Live(s, Pop(look), w)
    ensures Settled(Step(dirs, s, Pop(look)), w)
  {
    LastForTail(s.queue, w);
    TaskKeeps(s.(queue := s.queue[1..]), s.queue[0], look);
    TaskFrame(s.(queue := s.queue[1..]), s.queue[0], look);
  }

  lemma StepKeepsSettled(dirs: Dirs, s: State, e: Event, w: Window)
    requires Core(s) && QueueOk(s, w) && Settled(s, w)
    requires Unthinned(s, e, w) && Live(s, e, w)
    ensures Settled(Step(dirs, s, e), w)
  {
    match e {
      case ClientList(list) => ClientListSettles(dirs, s, list, w);
      case Pop(look) =>
        if s.queue != [] {
          if s.queue[0].win == w {
            PopSettles(dirs, s, look, w);
          } else {
            LastForTail(s.queue, w);
            TaskKeeps(s.(queue := s.queue[1..]), s.queue[0], look);
          }
        }
      case Property(x, idChanged, need, look) =>
        if x in s.infos {
          PropertyKeeps(s, x, idChanged, need, look);
        }
      case Destroy(x, pick) => DestroyKeeps(s, x, pick);
      case Map(x) => RegisterKeeps(s, x);
      case ActiveWindow(x) => ActivateKeeps(s, x);
      case _ =>
        DockingKeeps(dirs, s, e);
        StepFrame(dirs, s, e);
    }
  }

  lemma ClientListSettles(dirs: Dirs, s: State, list: seq<Window>, w: Window)
    requires Sorted(s.clients) && Sorted(list) && Settled(s, w)
    ensures Settled(Step(dirs, s, ClientList(list)), w)
  {
    var (add, remove) := Diff(s.clients, list);
    DiffIsExact(s.clients, list);
    LastForTasks(add, remove, w);
    LastForConcat(s.queue, Tasks(add, remove), w);
    assert w in list <==> w in multiset(list);
    assert w in s.clients <==> w in multiset(s.clients);
    assert w in add <==> w in multiset(add);
    assert w in remove <==> w in multiset(remove);
  }

  /** No client list of the run merely thins the window out. */
  ghost predicate UnthinnedRun(dirs: Dirs, s: State, events: seq<Event>, w: Window)
    decreases |events|
  {
    events == []
    || (Unthinned(s, events[0], w) && UnthinnedRun(dirs, Step(dirs, s, events[0]), events[1..], w))
  }

  ghost predicate LiveRun(dirs: Dirs, s: State, events: seq<Event>, w: Window)
    decreases |events|
  {
    events == [] || (Live(s, events[0], w) && LiveRun(dirs, Step(dirs, s, events[0]), events[1..], w))
  }

  /** On every run, in every interleaving and whatever happens to other windows, the queue stays truthful
      about the window; and if it was settled it stays settled while it is alive and showable. */
  lemma {:induction false} RunKeepsSettled(dirs: Dirs, s: State, events: seq<Event>, w: Window)
    requires Core(s) && QueueOk(s, w) && UnthinnedRun(dirs, s, events, w)
    ensures var t := Run(dirs, s, events);
            Core(t) && QueueOk(t, w) && (Settled(s, w) && LiveRun(dirs, s, events, w) ==> Settled(t, w))
    decreases |events|
  {
    if events != [] {
      StepKeepsCore(dirs, s, events[0]);
      StepKeepsQueue(dirs, s, events[0], w);
      if Settled(s, w) && LiveRun(dirs, s, events, w) {
        StepKeepsSettled(dirs, s, events[0], w);
      }
      RunKeepsSettled(dirs, Step(dirs, s, events[0]), events[1..], w);
    }
  }

  /** Whatever came before, short of a failed export: from the moment an operation queued for the window
      runs while it is alive and showable, and as long as it stays so, an empty queue means it is on the
      dock exactly when listed. */
  lemma SettledSinceLastPop(dirs: Dirs, s: State, look: Look, events: seq<Event>, w: Window)
    requires Core(s) && QueueOk(s, w) && !Stray(s, w)
    requires s.queue != [] && s.queue[0].win == w
    requires UnthinnedRun(dirs, s, [Pop(look)] + events, w) && LiveRun(dirs, s, [Pop(look)] + events, w)
    ensures var t := Run(dirs, s, [Pop(look)] + events);
            t.queue == [] ==> (Attached(t, w) <==> w in t.clients)
  {
    var all := [Pop(look)] + events;
    assert all[0] == Pop(look) && all[1..] == events;
    PopSettles(dirs, s, look, w);
    StepKeepsCore(dirs, s, all[0]);
    StepKeepsQueue(dirs, s, all[0], w);
    RunKeepsSettled(dirs, Step(dirs, s, all[0]), events, w);
  }

  // ---- what thinning does ----

  /** A removal queued for a window that is still listed takes it off the dock for good: nothing is queued
      to bring it back. */
  lemma UntruthfulPop(dirs: Dirs, s: State, look: Look, w: Window)
    requires Core(s) && s.queue != [] && s.queue[0] == RemoveWin(w)
    requires LastFor(s.queue[1..], w) == None && w in s.clients
    ensures var t := Step(dirs, s, Pop(look)); !Attached(t, w) && w in t.clients && LastFor(t.queue, w) == None
  {
    TaskKeeps(s.(queue := s.queue[1..]), s.queue[0], look);
  }

  lemma OneOfTwo(w: Window)
    ensures Diff([w, w], [w]) == ([], [w]) && Tasks([], [w]) == [RemoveWin(w)]
  {
    var a, b := [w, w], [w];
    assert a[1..] == [w] && b[1..] == [];
    assert Diff(a[1..], b[1..]) == ([], [w]);
  }

  /** The smallest case: a list that named the window twice now names it once. */
  lemma ThinnedFallsOff(dirs: Dirs, s: State, look: Look, w: Window)
    requires Core(s) && s.queue == [] && s.clients == [w, w]
    ensures var t := Run(dirs, s, [ClientList([w]), Pop(look)]);
            t.queue == [] && w in t.clients && !Attached(t, w)
  {
    var events := [ClientList([w]), Pop(look)];
    OneOfTwo(w);
    var u := Step(dirs, s, ClientList([w]));
    assert u.queue == [RemoveWin(w)];
    assert u.queue[1..] == [];
    assert events[1..] == [Pop(look)] && [Pop(look)][1..] == [];
    var t := Step(dirs, u, Pop(look));
    assert Run(dirs, s, events) == Run(dirs, u, [Pop(look)]);
    assert Run(dirs, u, [Pop(look)]) == Run(dirs, t, []);
    UntruthfulPop(dirs, u, look, w);
    TaskFrame(u.(queue := []), RemoveWin(w), look);
  }

  // ---- from the start ----

  lemma {:induction false} AttachAllSettles(s: State, list: seq<Window>, looks: seq<Look>, w: Window)
    requires |looks| == |list| && Core(s) && !Stray(s, w)
    requires forall i :: 0 <= i < |list| ==> list[i] in s.clients
    requires forall i :: 0 <= i < |list| && list[i] == w ==> Showable(looks[i])
    ensures var t := AttachAll(s, list, looks);
            && t.clients == s.clients && t.queue == s.queue && !Stray(t, w)
            && (Attached(t, w) <==> w in list || Attached(s, w))
    decreases |list|
  {
    if list != [] {
      var x := list[0];
      RegisterKeeps(s, x);
      AttachOrDetachKeeps(Register(s, x), x, looks[0]);
      AttachAllSettles(AttachOrDetach(Register(s, x), x, looks[0]), list[1..], looks[1..], w);
      assert list == [x] + list[1..];
    }
  }

  /** From start-up on, in every interleaving: when the queue has drained, a window that has been alive and
      showable throughout, and never merely thinned out, is attached to an entry exactly when it is in the
      client list; whatever happens to other windows, failed exports included. */
  lemma DockFollowsClientList(
    dirs: Dirs, apps: seq<AppInfo>, list: seq<Window>, looks: seq<Look>, events: seq<Event>, w: Window)
    requires |looks| == |list| && Sorted(list)
    requires forall i :: 0 <= i < |list| && list[i] == w ==> Showable(looks[i])
    requires var s := Start(dirs, apps, list, looks); UnthinnedRun(dirs, s, events, w) && LiveRun(dirs, s, events, w)
    ensures var t := Run(dirs, Start(dirs, apps, list, looks), events);
            t.queue == [] ==> (Attached(t, w) <==> w in t.clients)
  {
    var s0, s := BeforeWindows(dirs, apps, list), Start(dirs, apps, list, looks);
    DockedOk(apps, 0);
    NotFound(s0.entries, w);
    StartIsConsistent(dirs, apps, list, looks);
    AttachAllSettles(s0, list, looks, w);
    RunKeepsSettled(dirs, s, events, w);
  }
}
