/** What each operation of the dock does to the state, said about entries and windows alone and without the
    functions the step system is made of: the whole new state, case by case. */
module DockLaws {
  import opened Collections
  import opened WindowSlice
  import opened DockEntries
  import opened DockModel
  import opened DockInvariant
  import opened DockedApps

  /** The window getActiveWindow returns is one of these. */
  ghost predicate HasActive(s: State, windows: set<Window>) {
    (s.active.Some? && s.active.value in windows)
    || (s.active == None && s.previous.Some? && s.previous.value in windows)
  }

  // ---- attaching and detaching ----

  /** attachWindow with an entry of the window's inner id: the first such entry gains the window, keeps its
      current window if it has one, and nothing else about the entries changes. */
  lemma AttachJoinsFirst(s: State, w: Window, exported: bool, i: nat)
    requires w in s.infos && i < |s.entries| && s.entries[i].innerId == s.infos[w].entryInnerId
    requires forall k :: 0 <= k < i ==> s.entries[k].innerId != s.infos[w].entryInnerId
    ensures var t, e := AttachWindow(s, w, exported), s.entries[i];
            && t == s.(entries := t.entries, infos := s.infos[w := s.infos[w].(entry := Some(e.id))])
            && t.entries ==
               if w in e.windows then s.entries
               else
                 var ws := e.windows + {w};
                 s.entries[i := Entry(e.id, e.innerId, ws, if e.current == None then Some(w) else e.current, ws,
                                      HasActive(s, ws), e.docked, e.app)]
  {
    assert s.entries[i := s.entries[i]] == s.entries;
  }

  /** attachWindow without one: exactly one entry is added at the end, if it can be exported; the window's
      back-pointer is set either way. */
  lemma AttachAddsOne(s: State, w: Window, exported: bool)
    requires w in s.infos
    requires forall k :: 0 <= k < |s.entries| ==> s.entries[k].innerId != s.infos[w].entryInnerId
    ensures var t, info := AttachWindow(s, w, exported), s.infos[w];
            && t == s.(entries := t.entries, signals := t.signals, count := s.count + 1,
                       infos := s.infos[w := info.(entry := Some(s.count))])
            && if exported then
                 && t.entries == s.entries + [Entry(s.count, info.entryInnerId, {w}, Some(w), {w},
                                                    HasActive(s, {w}), false, info.app)]
                 && t.signals == s.signals + [EntryAdded(s.count, |s.entries|)]
               else t.entries == s.entries && t.signals == s.signals
  {
    assert {} + {w} == {w};
    assert FindInner(s.entries, s.infos[w].entryInnerId) < 0;
  }

  /** detachWindow: the entry with the window loses it, and goes if it then has no window and is not docked;
      otherwise its current window is one of those left, if any. */
  lemma DetachTakesOut(s: State, w: Window, pick: Window, i: nat)
    requires Sound(s) && i < |s.entries| && w in s.entries[i].windows
    requires forall k :: 0 <= k < i ==> w !in s.entries[k].windows
    ensures var t, e, ws := DetachWindow(s, w, pick), s.entries[i], s.entries[i].windows - {w};
            && t.infos == (if w in s.infos then s.infos[w := s.infos[w].(entry := None)] else s.infos)
            && t == s.(entries := t.entries, signals := t.signals, infos := t.infos)
            && if ws == {} && !e.docked then
                 t.entries == s.entries[..i] + s.entries[i + 1..] && t.signals == s.signals + [EntryRemoved(e.id)]
               else
                 && t.signals == s.signals && |t.entries| == |s.entries|
                 && var c := t.entries[i].current;
                    && t.entries == s.entries[i := Entry(e.id, e.innerId, ws, c, ws, HasActive(s, ws), e.docked, e.app)]
                    && (c == None <==> ws == {}) && (c.Some? ==> c.value in ws && (pick in ws ==> c.value == pick))
  {
    var e := Detach(s.entries[i], w, pick, ActiveWin(s));
    ReplaceKeepsIds(s.entries, i, e);
    IndexIs(s.entries[i := e], i);
    RemoveReplaced(s.entries, i, e);
  }

  lemma RemoveReplaced(entries: seq<Entry>, i: nat, e: Entry)
    requires i < |entries|
    ensures RemoveAt(entries[i := e], i) == entries[..i] + entries[i + 1..]
  {
  }

  lemma DetachMissesNone(s: State, w: Window, pick: Window)
    requires forall k :: 0 <= k < |s.entries| ==> w !in s.entries[k].windows
    ensures DetachWindow(s, w, pick) == s
  {
  }

  // ---- identifying and forgetting ----

  /** attachOrDetachWindow on a window without entry: identified only if it was not, then attached if it is
      listed and to be shown. */
  lemma UnattachedIsIdentified(s: State, w: Window, look: Look)
    requires w in s.infos && s.infos[w].entry == None
    ensures var t := AttachOrDetach(s, w, look);
            var u := if s.infos[w].entryInnerId != "" then s
                     else s.(infos := s.infos[w := WinInfo(None, look.innerId, look.app)]);
            t == if w in s.clients && look.showAgain then AttachWindow(u, w, look.exported) else u
  {
  }

  /** On a window with an entry: left alone if it is listed and to be shown, detached otherwise. */
  lemma AttachedIsReviewed(s: State, w: Window, look: Look)
    requires w in s.infos && s.infos[w].entry.Some?
    ensures AttachOrDetach(s, w, look) == if w in s.clients && look.show then s else DetachWindow(s, w, look.pick)
  {
  }

  /** The queued addition registers the window if need be, and looks at it if it got that far. */
  lemma AdditionRuns(s: State, w: Window, look: Look)
    ensures var u := if w in s.infos then s else s.(infos := s.infos[w := WinInfo(None, "", None)]);
            RunTask(s, AddWin(w), look) == if look.reached then AttachOrDetach(u, w, look) else u
  {
  }

  /** The queued removal detaches a registered window and forgets its inner id, but not its application. */
  lemma RemovalForgets(s: State, w: Window, look: Look)
    requires w in s.infos
    ensures var u := DetachWindow(s, w, look.pick);
            && w in u.infos
            && RunTask(s, RemoveWin(w), look)
               == u.(infos := u.infos[w := WinInfo(u.infos[w].entry, "", u.infos[w].app)])
  {
  }

  /** Removed and added again, a window is identified anew and attached under its new identity. */
  lemma ComesBackIdentified(s: State, w: Window, first: Look, look: Look)
    requires Core(s) && w in s.infos && !Stray(s, w) && w in s.clients
    requires look.reached && look.showAgain && look.exported
    ensures var u := RunTask(s, RemoveWin(w), first);
            var t := RunTask(u, AddWin(w), look);
            && w in t.infos && t.infos[w].entryInnerId == look.innerId && t.infos[w].app == look.app
            && exists k :: 0 <= k < |t.entries| && w in t.entries[k].windows && t.entries[k].innerId == look.innerId
  {
    DetachWindowKeeps(s, w, first.pick);
    var u := RunTask(s, RemoveWin(w), first);
    ForgetKeeps(DetachWindow(s, w, first.pick), w);
    assert !Stray(u, w) && !Attached(u, w);
    UnattachedIsIdentified(u, w, look);
    JoinsIdentity(Identify(u, w, look), w, look.exported);
  }

  lemma JoinsIdentity(s: State, w: Window, exported: bool)
    requires Core(s) && w in s.infos && s.infos[w].entry == None && exported
    ensures var t := AttachWindow(s, w, exported);
            && w in t.infos && t.infos[w] == s.infos[w].(entry := t.infos[w].entry)
            && exists k :: 0 <= k < |t.entries| && w in t.entries[k].windows
                           && t.entries[k].innerId == s.infos[w].entryInnerId
  {
    var i := FindInner(s.entries, s.infos[w].entryInnerId);
    var t := AttachWindow(s, w, exported);
    if i >= 0 {
      AttachJoinsFirst(s, w, exported, i);
      assert w in t.entries[i].windows;
    } else {
      AttachAddsOne(s, w, exported);
      assert w in t.entries[|s.entries|].windows;
    }
  }

  // ---- events about windows ----

  /** A changed property: an identity change detaches and forgets first; that or a need for it looks again. */
  lemma PropertyLooksAgain(dirs: Dirs, s: State, w: Window, idChanged: bool, need: bool, look: Look)
    ensures var t := Step(dirs, s, Property(w, idChanged, need, look));
            if w !in s.infos || (!idChanged && !need) then t == s
            else if !idChanged then t == AttachOrDetach(s, w, look)
            else
              var u := DetachWindow(s, w, look.pick);
              && w in u.infos
              && t == AttachOrDetach(u.(infos := u.infos[w := WinInfo(u.infos[w].entry, "", u.infos[w].app)]), w, look)
  {
  }

  /** A destroyed window is detached and unregistered; a mapped one is registered if it was not. */
  lemma DestroyedAndMapped(dirs: Dirs, s: State, w: Window, pick: Window)
    ensures var t := Step(dirs, s, Destroy(w, pick));
            if w in s.infos then
              var u := DetachWindow(s, w, pick);
              t == u.(infos := u.infos - {w}) && w !in t.infos
            else t == s
    ensures Step(dirs, s, Map(w)) == if w in s.infos then s else s.(infos := s.infos[w := WinInfo(None, "", None)])
  {
    assert w !in s.infos ==> s.infos - {w} == s.infos;
  }

  /** The active window changes: a registered one becomes active, and current in its entry; otherwise the
      last active one is remembered and no flag changes. */
  lemma ActiveChanges(dirs: Dirs, s: State, w: Window)
    ensures var t := Step(dirs, s, ActiveWindow(w));
            if w in s.infos then
              && t == s.(active := Some(w), entries := t.entries) && |t.entries| == |s.entries|
              && forall k :: 0 <= k < |s.entries| ==>
                   t.entries[k] == if w in s.entries[k].windows then s.entries[k].(active := true, current := Some(w))
                                   else s.entries[k].(active := false)
            else t == s.(active := None, previous := s.active)
  {
  }

  /** A new client list queues its additions in ascending order and then its removals in ascending order,
      behind what was queued, each as often as the lists differ. */
  lemma ClientListQueues(dirs: Dirs, s: State, list: seq<Window>) returns (add: seq<Window>, remove: seq<Window>)
    requires Sorted(s.clients) && Sorted(list)
    ensures Sorted(add) && multiset(add) == multiset(list) - multiset(s.clients)
    ensures Sorted(remove) && multiset(remove) == multiset(s.clients) - multiset(list)
    ensures var t := Step(dirs, s, ClientList(list));
            t == s.(clients := list, queue := t.queue) && QueuedBehind(s.queue, add, remove, t.queue)
  {
    add, remove := Diff(s.clients, list).0, Diff(s.clients, list).1;
    DiffIsExact(s.clients, list);
    DiffIsSorted(s.clients, list);
    TasksQueue(s.queue, add, remove);
  }

  ghost predicate QueuedBehind(queue: seq<Task>, add: seq<Window>, remove: seq<Window>, longer: seq<Task>) {
    && |longer| == |queue| + |add| + |remove|
    && (forall k :: 0 <= k < |queue| ==> longer[k] == queue[k])
    && (forall k :: 0 <= k < |add| ==> longer[|queue| + k] == AddWin(add[k]))
    && (forall k :: 0 <= k < |remove| ==> longer[|queue| + |add| + k] == RemoveWin(remove[k]))
  }

  lemma TasksQueue(queue: seq<Task>, add: seq<Window>, remove: seq<Window>)
    ensures QueuedBehind(queue, add, remove, queue + Tasks(add, remove))
  {
  }

  /** The oldest closure is taken and run. */
  lemma PopRunsOldest(dirs: Dirs, s: State, look: Look)
    ensures Step(dirs, s, Pop(look)) ==
            if s.queue == [] then s else RunTask(s.(queue := s.queue[1..]), s.queue[0], look)
  {
  }

  // ---- docking ----

  /** What docking makes of an undocked entry: an installed application or one that has a scratch file stays;
      anything else becomes the new scratch file's application, or nothing happens without one. */
  ghost predicate BecomesDocked(e: Entry, scratch: Option<AppInfo>, r: Option<Entry>) {
    if e.app.Some? && (e.app.value.installed || e.app.value.scratch) then
      r == Some(Entry(e.id, e.innerId, e.windows, e.current, e.infos, e.active, true, e.app))
    else if scratch.Some? then
      r == Some(Entry(e.id, scratch.value.innerId, e.windows, e.current, e.infos, e.active, true, scratch))
    else r == None
  }

  /** Docking an entry. */
  lemma DockEntryDocks(dirs: Dirs, s: State, i: nat, scratch: Option<AppInfo>, r: Option<Entry>)
    requires Sound(s) && i < |s.entries| && BecomesDocked(s.entries[i], scratch, r)
    ensures var t := Step(dirs, s, DockEntry(s.entries[i].id, scratch));
            if s.entries[i].docked || r == None then t == s
            else t == s.(entries := s.entries[i := r.value], saved := t.saved) && SavedOk(dirs, t)
  {
    IndexIs(s.entries, i);
  }

  /** A dock request for an application that has an entry docks the first one with its inner id. */
  lemma RequestDocksFirst(
    dirs: Dirs, s: State, app: AppInfo, index: int, scratch: Option<AppInfo>, exported: bool, i: nat, r: Option<Entry>)
    requires i < |s.entries| && s.entries[i].innerId == app.innerId && BecomesDocked(s.entries[i], scratch, r)
    requires forall k :: 0 <= k < i ==> s.entries[k].innerId != app.innerId
    ensures var t := Step(dirs, s, RequestDock(Some(app), index, scratch, exported));
            if s.entries[i].docked || r == None then t == s
            else t == s.(entries := s.entries[i := r.value], saved := t.saved) && SavedOk(dirs, t)
  {
    assert FindInner(s.entries, app.innerId) == i;
  }

  /** One for an application without entry adds exactly one, at the index if it is in range and at the end
      otherwise, or only uses up an id if the scratch file or the export fails. */
  lemma RequestAddsOne(
    dirs: Dirs, s: State, app: AppInfo, index: int, scratch: Option<AppInfo>, exported: bool, r: Option<Entry>)
    requires forall k :: 0 <= k < |s.entries| ==> s.entries[k].innerId != app.innerId
    requires BecomesDocked(Entry(s.count, app.innerId, {}, None, {}, false, false, Some(app)), scratch, r)
    ensures var t := Step(dirs, s, RequestDock(Some(app), index, scratch, exported));
            var place := if 0 <= index < |s.entries| then index else |s.entries|;
            if r == None || !exported then t == s.(count := s.count + 1)
            else
              && t == s.(entries := s.entries[..place] + [r.value] + s.entries[place..], count := s.count + 1,
                         saved := t.saved, signals := s.signals + [EntryAdded(s.count, place)])
              && SavedOk(dirs, t)
  {
    assert FindInner(s.entries, app.innerId) < 0;
  }

  /** Undocking an entry: without windows it goes; with windows it stays, and if its application was a
      scratch file it takes the identity found for its current window, or none at all for a hashed one. */
  lemma UndockReleases(dirs: Dirs, s: State, i: nat, innerId: string, known: Option<AppInfo>)
    requires Sound(s) && i < |s.entries|
    ensures var t, e := Undock(dirs, s, i, innerId, known), s.entries[i];
            if !e.docked then t == s
            else if e.windows == {} then
              && t == s.(entries := s.entries[..i] + s.entries[i + 1..], saved := t.saved,
                         signals := s.signals + [EntryRemoved(e.id)])
              && SavedOk(dirs, t)
            else
              var again := e.app.value.scratch && e.current.Some?;
              var inner := if again then innerId else e.innerId;
              var app := if !again then e.app else if e.app.value.hashed then None else known;
              var r := Entry(e.id, inner, e.windows, e.current, e.infos, e.active, false, app);
              && t == s.(entries := s.entries[i := r], saved := t.saved)
              && SavedOk(dirs, t)
  {
    IndexIs(s.entries, i);
  }

  /** This entry is the first one, docked if need be, whose application has the file; or, when none has, the
      first one whose application has the hash. */
  ghost predicate IsMeant(s: State, dockedOnly: bool, file: string, hash: Option<string>, i: nat) {
    && i < |s.entries| && s.entries[i].app.Some? && (dockedOnly ==> s.entries[i].docked)
    && if s.entries[i].app.value.file == file then
         forall k :: 0 <= k < i && (dockedOnly ==> s.entries[k].docked) && s.entries[k].app.Some? ==>
           s.entries[k].app.value.file != file
       else
         && hash == Some(s.entries[i].app.value.innerId)
         && (forall k :: 0 <= k < |s.entries| && (dockedOnly ==> s.entries[k].docked) && s.entries[k].app.Some? ==>
               s.entries[k].app.value.file != file)
         && (forall k :: 0 <= k < i && (dockedOnly ==> s.entries[k].docked) && s.entries[k].app.Some? ==>
               s.entries[k].app.value.innerId != s.entries[i].app.value.innerId)
  }

  /** No entry, docked if need be, has an application with the file or the hash. */
  ghost predicate IsUnknown(s: State, dockedOnly: bool, file: string, hash: Option<string>) {
    forall k :: 0 <= k < |s.entries| && (dockedOnly ==> s.entries[k].docked) && s.entries[k].app.Some? ==>
      s.entries[k].app.value.file != file && hash != Some(s.entries[k].app.value.innerId)
  }

  lemma FindsMeant(s: State, dockedOnly: bool, file: string, hash: Option<string>, i: nat)
    ensures IsMeant(s, dockedOnly, file, hash, i) ==> FindByPath(s.entries, dockedOnly, file, hash) == i
    ensures IsUnknown(s, dockedOnly, file, hash) <==> FindByPath(s.entries, dockedOnly, file, hash) < 0
  {
  }

  /** A request to undock a file undocks the entry that is meant, and changes nothing if and only if there is none. */
  lemma UndockRequestActs(
    dirs: Dirs, s: State, file: string, hash: Option<string>, innerId: string, known: Option<AppInfo>, i: nat)
    requires Sound(s)
    ensures var t := Step(dirs, s, RequestUndock(file, hash, innerId, known));
            && (IsMeant(s, true, file, hash, i) ==> t == Undock(dirs, s, i, innerId, known))
            && (IsUnknown(s, true, file, hash) <==> t == s)
  {
    FindsMeant(s, true, file, hash, i);
    var j := FindByPath(s.entries, true, file, hash);
    if j >= 0 {
      UndockChanges(dirs, s, j, innerId, known);
    }
  }

  lemma UndockChanges(dirs: Dirs, s: State, i: nat, innerId: string, known: Option<AppInfo>)
    requires Sound(s) && i < |s.entries| && s.entries[i].docked
    ensures Undock(dirs, s, i, innerId, known).entries != s.entries
  {
    UndockReleases(dirs, s, i, innerId, known);
    var t := Undock(dirs, s, i, innerId, known);
    if s.entries[i].windows == {} {
      assert |t.entries| == |s.entries| - 1;
    } else {
      assert !t.entries[i].docked;
    }
  }

  /** A launcher update gives the entry that is meant its new application and inner id, and changes nothing
      else; nothing at all if no entry is meant or the file cannot be parsed. */
  lemma UpdateReplaces(dirs: Dirs, s: State, file: string, parsed: Option<AppInfo>, i: nat)
    ensures var t := Step(dirs, s, LauncherUpdated(file, parsed));
            if parsed == None then t == s
            else
              && (IsMeant(s, false, file, Some(parsed.value.innerId), i) ==>
                    var e := s.entries[i];
                    t == s.(entries := s.entries[i := Entry(e.id, parsed.value.innerId, e.windows, e.current, e.infos,
                                                            e.active, e.docked, parsed)]))
              && (IsUnknown(s, false, file, Some(parsed.value.innerId)) ==> t == s)
  {
    if parsed.Some? {
      FindsMeant(s, false, file, Some(parsed.value.innerId), i);
    }
  }

  /** A move takes out the entry and puts it back at its new place; the others keep their order. */
  lemma MoveTakesAndPuts(dirs: Dirs, s: State, i: int, j: int)
    ensures var t := Step(dirs, s, MoveEntry(i, j));
            if i == j || !(0 <= i < |s.entries|) || !(0 <= j < |s.entries|) then t == s
            else
              && t == s.(entries := t.entries, saved := t.saved) && SavedOk(dirs, t)
              && |t.entries| == |s.entries| && t.entries[j] == s.entries[i]
              && t.entries[..j] + t.entries[j + 1..] == s.entries[..i] + s.entries[i + 1..]
  {
    if 0 <= i < |s.entries| && 0 <= j < |s.entries| {
      MoveKeepsOthers(s.entries, i, j);
      assert RemoveAt(Moved(s.entries, i, j), j) == RemoveAt(s.entries, i);
    }
  }

  // ---- start-up ----

  /** Before any window is looked at: one docked entry per stored application, in order, without signals. */
  lemma StartsDocked(dirs: Dirs, apps: seq<AppInfo>, list: seq<Window>)
    ensures var s := BeforeWindows(dirs, apps, list);
            && s == State(list, map[], s.entries, None, None, [], |apps|, s.saved, []) && SavedOk(dirs, s)
            && |s.entries| == |apps|
            && forall k :: 0 <= k < |apps| ==>
                 s.entries[k] == Entry(k, apps[k].innerId, {}, None, {}, false, true, Some(apps[k]))
  {
    DockedOk(apps, 0);
  }
}
