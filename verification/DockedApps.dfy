/** The saved list of docked applications and the signals sent to the front end stay in step with the
    entry list. */
module DockedApps {
  import opened Collections
  import opened WindowSlice
  import opened DockEntries
  import opened DockModel
  import opened DockInvariant
  import DesktopPath

  /** DockedApps holds the zipped file names of the docked entries, in list order. */
  ghost predicate SavedOk(dirs: Dirs, s: State) {
    s.saved == Saved(dirs, s.entries)
  }

  lemma {:induction false} FilesConcat(a: seq<Entry>, b: seq<Entry>)
    ensures DockedFiles(a + b) == DockedFiles(a) + DockedFiles(b)
  {
    if a == [] {
      assert a + b == b;
    } else {
      assert (a + b)[1..] == a[1..] + b;
      FilesConcat(a[1..], b);
    }
  }

  lemma FilesOne(e: Entry)
    ensures DockedFiles([e]) == if e.app.Some? && e.docked then [e.app.value.file] else []
  {
    assert [e][1..] == [];
  }

  lemma Cut<T>(s: seq<T>, i: nat)
    requires i < |s|
    ensures s == s[..i] + ([s[i]] + s[i + 1..])
  {
  }

  lemma FilesOfThree(entries: seq<Entry>, a: seq<Entry>, e: Entry, b: seq<Entry>)
    requires entries == a + ([e] + b)
    ensures DockedFiles(entries) == DockedFiles(a) + DockedFiles([e]) + DockedFiles(b)
  {
    FilesConcat(a, [e] + b);
    FilesConcat([e], b);
  }

  lemma FilesSplit(entries: seq<Entry>, i: nat)
    requires i < |entries|
    ensures DockedFiles(entries)
            == DockedFiles(entries[..i]) + DockedFiles([entries[i]]) + DockedFiles(entries[i + 1..])
  {
    Cut(entries, i);
    FilesOfThree(entries, entries[..i], entries[i], entries[i + 1..]);
  }

  lemma FilesReplace(entries: seq<Entry>, i: nat, e: Entry)
    requires i < |entries|
    ensures DockedFiles(entries[i := e])
            == DockedFiles(entries[..i]) + DockedFiles([e]) + DockedFiles(entries[i + 1..])
    ensures e.docked == entries[i].docked && e.app == entries[i].app ==>
              DockedFiles(entries[i := e]) == DockedFiles(entries)
  {
    var r := entries[i := e];
    FilesSplit(entries, i);
    FilesSplit(r, i);
    assert r[..i] == entries[..i] && r[i + 1..] == entries[i + 1..];
    FilesOne(e);
    FilesOne(entries[i]);
  }

  lemma FilesRemoveUndocked(entries: seq<Entry>, i: nat)
    requires i < |entries| && !entries[i].docked
    ensures DockedFiles(RemoveAt(entries, i)) == DockedFiles(entries)
  {
    FilesSplit(entries, i);
    FilesOne(entries[i]);
    FilesConcat(entries[..i], entries[i + 1..]);
    var head := DockedFiles(entries[..i]);
    assert head + [] == head;
  }

  lemma FilesInsertUndocked(entries: seq<Entry>, e: Entry, i: nat)
    requires i <= |entries| && !e.docked
    ensures DockedFiles(InsertAt(entries, e, i)) == DockedFiles(entries)
  {
    InsertThenRemove(entries, e, i);
    FilesRemoveUndocked(InsertAt(entries, e, i), i);
  }

  lemma {:induction false} FilesActivate(entries: seq<Entry>, w: Window)
    ensures DockedFiles(ActivateAll(entries, w)) == DockedFiles(entries)
  {
    if entries != [] {
      assert ActivateAll(entries, w)[1..] == ActivateAll(entries[1..], w);
      FilesActivate(entries[1..], w);
    }
  }

  // ---- what every step keeps, whether or not exports succeed ----

  /** Ids are distinct and were handed out, and a docked entry has an application. */
  ghost predicate Sound(s: State) {
    && DistinctIds(s.entries)
    && forall i :: 0 <= i < |s.entries| ==>
         s.entries[i].id < s.count && (s.entries[i].docked ==> s.entries[i].app.Some?)
  }

  lemma SoundReplace(s: State, i: nat, e: Entry)
    requires Sound(s) && i < |s.entries| && e.id == s.entries[i].id && (e.docked ==> e.app.Some?)
    ensures Sound(s.(entries := s.entries[i := e]))
  {
  }

  lemma SoundRemove(s: State, id: nat)
    requires Sound(s)
    ensures Sound(RemoveEntry(s, id))
  {
    var i := IndexOf(s.entries, id);
    if i >= 0 {
      var r := RemoveAt(s.entries, i);
      assert forall k :: 0 <= k < |r| ==> r[k] == s.entries[if k < i then k else k + 1];
    }
  }

  lemma SoundAppend(s: State, e: Entry, index: int)
    requires Sound(s) && e.id == s.count && (e.docked ==> e.app.Some?)
    ensures Sound(Append(s.(count := s.count + 1), e, index))
  {
    var i := InsertIndex(|s.entries|, index);
    var r := InsertAt(s.entries, e, i);
    assert forall k :: 0 <= k < |r| ==>
        r[k] == if k < i then s.entries[k] else if k == i then e else s.entries[k - 1];
  }

  lemma SoundAttach(s: State, w: Window, exported: bool)
    requires Sound(s) && w in s.infos
    ensures Sound(AttachWindow(s, w, exported))
  {
    var i := FindInner(s.entries, s.infos[w].entryInnerId);
    if i >= 0 {
      SoundReplace(s, i, Attach(s.entries[i], w, ActiveWin(s)));
    } else {
      SoundAppend(s, Attach(NewEntry(s.count, s.infos[w].entryInnerId, s.infos[w].app), w, ActiveWin(s)), -1);
    }
  }

  lemma SoundDetach(s: State, w: Window, pick: Window)
    requires Sound(s)
    ensures Sound(DetachWindow(s, w, pick))
  {
    var i := FindWindow(s.entries, w);
    if i >= 0 {
      var e := Detach(s.entries[i], w, pick, ActiveWin(s));
      SoundReplace(s, i, e);
      SoundRemove(s.(entries := s.entries[i := e], infos := SetLink(s.infos, w, None)), e.id);
    }
  }

  lemma SoundAttachOrDetach(s: State, w: Window, look: Look)
    requires Sound(s) && w in s.infos
    ensures Sound(AttachOrDetach(s, w, look))
  {
    SoundDetach(s, w, look.pick);
    SoundAttach(Identify(s, w, look), w, look.exported);
  }

  lemma SoundTask(s: State, task: Task, look: Look)
    requires Sound(s)
    ensures Sound(RunTask(s, task, look))
  {
    var w := task.win;
    if task.AddWin? {
      SoundAttachOrDetach(Register(s, w), w, look);
    } else if w in s.infos {
      SoundDetach(s, w, look.pick);
    } else if FindWindow(s.entries, w) >= 0 {
      SoundRemove(s, s.entries[FindWindow(s.entries, w)].id);
    }
  }

  lemma SoundProperty(s: State, w: Window, idChanged: bool, need: bool, look: Look)
    requires Sound(s)
    ensures Sound(ChangeProperty(s, w, idChanged, need, look))
  {
    SoundDetach(s, w, look.pick);
    var t := if idChanged then Forget(DetachWindow(s, w, look.pick), w) else s;
    if w in t.infos {
      SoundAttachOrDetach(t, w, look);
    }
  }

  lemma SoundUndock(dirs: Dirs, s: State, i: nat, innerId: string, app: Option<AppInfo>)
    requires Sound(s) && i < |s.entries|
    ensures Sound(Undock(dirs, s, i, innerId, app))
  {
    var e := s.entries[i];
    if e.docked && e.app.Some? {
      SoundRemove(s, e.id);
      SoundReplace(s, i, Released(e, innerId, app));
    }
  }

  lemma SoundDock(s: State, i: nat, scratch: Option<AppInfo>)
    requires Sound(s) && i < |s.entries|
    ensures Sound(s.(entries := s.entries[i := Dock(s.entries[i], scratch).0]))
  {
    SoundReplace(s, i, Dock(s.entries[i], scratch).0);
  }

  lemma SoundRequest(
    dirs: Dirs, s: State, app: AppInfo, index: int, scratch: Option<AppInfo>, exported: bool)
    requires Sound(s)
    ensures Sound(Request(dirs, s, app, index, scratch, exported))
  {
    var i := FindInner(s.entries, app.innerId);
    if i >= 0 {
      SoundDock(s, i, scratch);
    } else {
      SoundAppend(s, Dock(NewEntry(s.count, app.innerId, Some(app)), scratch).0, index);
    }
  }

  lemma SoundMove(s: State, i: nat, j: nat)
    requires Sound(s) && i < |s.entries| && j < |s.entries|
    ensures Sound(s.(entries := Moved(s.entries, i, j)))
  {
    MovedAt(s.entries, i, j);
    var m := Moved(s.entries, i, j);
    forall k, l | 0 <= k < l < |m| ensures m[k].id != m[l].id {
      assert Origin(i, j, k) != Origin(i, j, l);
    }
  }

  /** Every step keeps the list sound, whether or not exports succeed. */
  lemma StepKeepsSound(dirs: Dirs, s: State, e: Event)
    requires Sound(s)
    ensures Sound(Step(dirs, s, e))
  {
    match e {
      case Pop(look) =>
        if s.queue != [] {
          SoundTask(s.(queue := s.queue[1..]), s.queue[0], look);
        }
      case Property(w, idChanged, need, look) => SoundProperty(s, w, idChanged, need, look);
      case Destroy(w, pick) => SoundDetach(s, w, pick);
      case MoveEntry(i, j) =>
        if 0 <= i < |s.entries| && 0 <= j < |s.entries| {
          SoundMove(s, i, j);
        }
      case _ =>
        if IsDocking(e) {
          SoundDocking(dirs, s, e);
        }
    }
  }

  ghost predicate IsDocking(e: Event) {
    e.DockEntry? || e.UndockEntry? || e.RequestDock? || e.RequestUndock? || e.LauncherUpdated?
  }

  lemma SoundDocking(dirs: Dirs, s: State, e: Event)
    requires Sound(s) && IsDocking(e)
    ensures Sound(Step(dirs, s, e))
  {
    match e {
      case DockEntry(id, scratch) => SoundDockEntry(dirs, s, id, scratch);
      case UndockEntry(id, innerId, app) =>
        if IndexOf(s.entries, id) >= 0 {
          SoundUndock(dirs, s, IndexOf(s.entries, id), innerId, app);
        }
      case RequestDock(wanted, index, scratch, exported) =>
        if wanted.Some? {
          SoundRequest(dirs, s, wanted.value, index, scratch, exported);
        }
      case RequestUndock(file, hash, innerId, app) => SoundUndockFile(dirs, s, file, hash, innerId, app);
      case LauncherUpdated(file, parsed) =>
        if parsed.Some? {
          SoundUpdate(s, file, parsed.value);
        }
    }
  }

  lemma SoundDockEntry(dirs: Dirs, s: State, id: nat, scratch: Option<AppInfo>)
    requires Sound(s)
    ensures Sound(Step(dirs, s, DockEntry(id, scratch)))
  {
    if IndexOf(s.entries, id) >= 0 {
      SoundDock(s, IndexOf(s.entries, id), scratch);
    }
  }

  lemma SoundUndockFile(
    dirs: Dirs, s: State, file: string, hash: Option<string>, innerId: string, app: Option<AppInfo>)
    requires Sound(s)
    ensures Sound(UndockFile(dirs, s, file, hash, innerId, app))
  {
    if FindByPath(s.entries, true, file, hash) >= 0 {
      SoundUndock(dirs, s, FindByPath(s.entries, true, file, hash), innerId, app);
    }
  }

  lemma SoundUpdate(s: State, file: string, app: AppInfo)
    requires Sound(s)
    ensures Sound(Update(s, file, app))
  {
    var i := FindByPath(s.entries, false, file, Some(app.innerId));
    if i >= 0 {
      SoundReplace(s, i, s.entries[i].(app := Some(app), innerId := app.innerId));
    }
  }

  // ---- the saved list ----

  /** Neither the docked files nor the saved list change. */
  ghost predicate Untouched(s: State, t: State) {
    t.saved == s.saved && DockedFiles(t.entries) == DockedFiles(s.entries)
  }

  lemma AttachUntouched(s: State, w: Window, exported: bool)
    requires w in s.infos
    ensures Untouched(s, AttachWindow(s, w, exported))
  {
    var i := FindInner(s.entries, s.infos[w].entryInnerId);
    if i >= 0 {
      FilesReplace(s.entries, i, Attach(s.entries[i], w, ActiveWin(s)));
    } else {
      var e := Attach(NewEntry(s.count, s.infos[w].entryInnerId, s.infos[w].app), w, ActiveWin(s));
      FilesInsertUndocked(s.entries, e, |s.entries|);
    }
  }

  lemma ReplaceKeepsIds(entries: seq<Entry>, i: nat, e: Entry)
    requires i < |entries| && DistinctIds(entries) && e.id == entries[i].id
    ensures DistinctIds(entries[i := e])
  {
  }

  lemma DetachUntouched(s: State, w: Window, pick: Window)
    requires Sound(s)
    ensures Untouched(s, DetachWindow(s, w, pick))
  {
    var i := FindWindow(s.entries, w);
    if i >= 0 {
      FilesRewrite(s.entries, i, Detach(s.entries[i], w, pick, ActiveWin(s)));
    }
  }

  lemma FilesRewrite(entries: seq<Entry>, i: nat, e: Entry)
    requires i < |entries| && DistinctIds(entries)
    requires e.id == entries[i].id && e.docked == entries[i].docked && e.app == entries[i].app
    ensures DockedFiles(entries[i := e]) == DockedFiles(entries)
    ensures IndexOf(entries[i := e], e.id) == i
    ensures !e.docked ==> DockedFiles(RemoveAt(entries[i := e], i)) == DockedFiles(entries)
  {
    FilesReplace(entries, i, e);
    ReplaceKeepsIds(entries, i, e);
    IndexIs(entries[i := e], i);
    if !e.docked {
      FilesRemoveUndocked(entries[i := e], i);
    }
  }

  lemma AttachOrDetachUntouched(s: State, w: Window, look: Look)
    requires Sound(s) && w in s.infos
    ensures Untouched(s, AttachOrDetach(s, w, look))
  {
    DetachUntouched(s, w, look.pick);
    AttachUntouched(Identify(s, w, look), w, look.exported);
  }

  lemma TaskUntouched(s: State, task: Task, look: Look)
    requires Sound(s)
    ensures Untouched(s, RunTask(s, task, look))
  {
    var w := task.win;
    if task.AddWin? {
      AttachOrDetachUntouched(Register(s, w), w, look);
    } else if w in s.infos {
      DetachUntouched(s, w, look.pick);
    } else {
      var i := FindWindow(s.entries, w);
      if i >= 0 && !s.entries[i].docked {
        IndexIs(s.entries, i);
        FilesRemoveUndocked(s.entries, i);
      }
    }
  }

  lemma PropertyUntouched(s: State, w: Window, idChanged: bool, need: bool, look: Look)
    requires Sound(s)
    ensures Untouched(s, ChangeProperty(s, w, idChanged, need, look))
  {
    var t := s;
    if idChanged {
      SoundDetach(s, w, look.pick);
      DetachUntouched(s, w, look.pick);
      t := Forget(DetachWindow(s, w, look.pick), w);
    }
    if w in t.infos {
      AttachOrDetachUntouched(t, w, look);
    }
  }

  /** Every step but a launcher update either saves the docked entries or leaves them and the list alone. */
  lemma StepSaves(dirs: Dirs, s: State, e: Event)
    requires Sound(s) && !e.LauncherUpdated?
    ensures SavedOk(dirs, Step(dirs, s, e)) || Untouched(s, Step(dirs, s, e))
  {
    match e {
      case Pop(look) =>
        if s.queue != [] {
          TaskUntouched(s.(queue := s.queue[1..]), s.queue[0], look);
        }
      case Property(w, idChanged, need, look) => PropertyUntouched(s, w, idChanged, need, look);
      case Destroy(w, pick) => DetachUntouched(s, w, pick);
      case ActiveWindow(w) => FilesActivate(s.entries, w);
      case _ =>
    }
  }

  lemma StepKeepsSaved(dirs: Dirs, s: State, e: Event)
    requires Sound(s) && SavedOk(dirs, s) && !e.LauncherUpdated?
    ensures SavedOk(dirs, Step(dirs, s, e))
  {
    StepSaves(dirs, s, e);
  }

  /** Through any run without a launcher update, whether or not exports succeed, the saved list is the
      docked entries, in order, and every docked entry has an application. */
  lemma {:induction false} RunKeepsSaved(dirs: Dirs, s: State, events: seq<Event>)
    requires Sound(s) && SavedOk(dirs, s)
    requires forall i :: 0 <= i < |events| ==> !events[i].LauncherUpdated?
    ensures Sound(Run(dirs, s, events)) && SavedOk(dirs, Run(dirs, s, events))
    decreases |events|
  {
    if events != [] {
      StepKeepsSound(dirs, s, events[0]);
      StepKeepsSaved(dirs, s, events[0]);
      RunKeepsSaved(dirs, Step(dirs, s, events[0]), events[1..]);
    }
  }

  // ---- every iteration order ----

  /** A name that some iteration order stores for the file. */
  ghost predicate IsName(table: DesktopPath.Table, file: string, name: string) {
    exists order :: DesktopPath.Visits(order, table) && name == DesktopPath.Zip(order, file)
  }

  /** The saved list names the docked entries in order, each under some iteration order of its own. */
  ghost predicate Names(table: DesktopPath.Table, entries: seq<Entry>, saved: seq<string>) {
    var files := DockedFiles(entries);
    |saved| == |files| && forall i :: 0 <= i < |files| ==> IsName(table, files[i], saved[i])
  }

  lemma SavedNames(table: DesktopPath.Table, dirs: Dirs, entries: seq<Entry>)
    requires DesktopPath.Visits(dirs, table)
    ensures Names(table, entries, Saved(dirs, entries))
  {
  }

  /** When the order makes no difference, there is only one such list. */
  lemma SavedAnyOrder(table: DesktopPath.Table, dirs: Dirs, entries: seq<Entry>, saved: seq<string>)
    requires DesktopPath.OrderFree(table, dirs) && Names(table, entries, saved)
    ensures saved == Saved(dirs, entries)
  {
    var files := DockedFiles(entries);
    forall i | 0 <= i < |files| ensures saved[i] == DesktopPath.Zip(dirs, files[i]) {
      assert IsName(table, files[i], saved[i]);
    }
  }

  lemma SavedOneOrder(table: DesktopPath.Table, order: Dirs, dirs: Dirs, entries: seq<Entry>)
    requires DesktopPath.OrderFree(table, dirs) && DesktopPath.Visits(order, table)
    ensures Saved(order, entries) == Saved(dirs, entries)
  {
    SavedNames(table, order, entries);
    SavedAnyOrder(table, dirs, entries, Saved(order, entries));
  }

  lemma UndockAnyOrder(
    table: DesktopPath.Table, order: Dirs, dirs: Dirs, s: State, i: nat, innerId: string, app: Option<AppInfo>)
    requires DesktopPath.OrderFree(table, dirs) && DesktopPath.Visits(order, table)
    requires i < |s.entries|
    ensures Undock(order, s, i, innerId, app) == Undock(dirs, s, i, innerId, app)
  {
    SavedOneOrder(table, order, dirs, Undock(dirs, s, i, innerId, app).entries);
  }

  /** So no step depends on the order the runtime happens to choose. */
  lemma StepAnyOrder(table: DesktopPath.Table, order: Dirs, dirs: Dirs, s: State, e: Event)
    requires DesktopPath.OrderFree(table, dirs) && DesktopPath.Visits(order, table)
    ensures Step(order, s, e) == Step(dirs, s, e)
  {
    match e {
      case UndockEntry(id, innerId, app) =>
        var i := IndexOf(s.entries, id);
        if i >= 0 {
          UndockAnyOrder(table, order, dirs, s, i, innerId, app);
        }
      case RequestUndock(file, hash, innerId, app) =>
        var i := FindByPath(s.entries, true, file, hash);
        if i >= 0 {
          UndockAnyOrder(table, order, dirs, s, i, innerId, app);
        }
      case _ => SavedOneOrder(table, order, dirs, Step(dirs, s, e).entries);
    }
  }

  /** A run in which every step visits the map in its own order. */
  ghost function RunWith(orders: seq<Dirs>, s: State, events: seq<Event>): State
    requires |orders| == |events|
    decreases |events|
  {
    if events == [] then s else RunWith(orders[1..], Step(orders[0], s, events[0]), events[1..])
  }

  lemma {:induction false} RunAnyOrder(
    table: DesktopPath.Table, orders: seq<Dirs>, dirs: Dirs, s: State, events: seq<Event>)
    requires DesktopPath.OrderFree(table, dirs)
    requires |orders| == |events| && forall i :: 0 <= i < |orders| ==> DesktopPath.Visits(orders[i], table)
    ensures RunWith(orders, s, events) == Run(dirs, s, events)
    decreases |events|
  {
    if events != [] {
      StepAnyOrder(table, orders[0], dirs, s, events[0]);
      RunAnyOrder(table, orders[1..], dirs, Step(dirs, s, events[0]), events[1..]);
    }
  }

  /** Through any run without a launcher update, for any directories and whatever order each step visits them
      in, the saved list names the docked entries in order. */
  lemma {:induction false} RunKeepsNames(
    table: DesktopPath.Table, orders: seq<Dirs>, s: State, events: seq<Event>)
    requires |orders| == |events| && forall i :: 0 <= i < |orders| ==> DesktopPath.Visits(orders[i], table)
    requires Sound(s) && Names(table, s.entries, s.saved)
    requires forall i :: 0 <= i < |events| ==> !events[i].LauncherUpdated?
    ensures var t := RunWith(orders, s, events); Sound(t) && Names(table, t.entries, t.saved)
    decreases |events|
  {
    if events != [] {
      var t := Step(orders[0], s, events[0]);
      StepKeepsSound(orders[0], s, events[0]);
      StepSaves(orders[0], s, events[0]);
      SavedNames(table, orders[0], t.entries);
      RunKeepsNames(table, orders[1..], t, events[1..]);
    }
  }

  /** And where the order makes no difference, it is their names under every order. */
  lemma RunKeepsSavedAnyOrder(
    table: DesktopPath.Table, orders: seq<Dirs>, dirs: Dirs, s: State, events: seq<Event>)
    requires DesktopPath.OrderFree(table, dirs)
    requires |orders| == |events| && forall i :: 0 <= i < |orders| ==> DesktopPath.Visits(orders[i], table)
    requires Sound(s) && SavedOk(dirs, s)
    requires forall i :: 0 <= i < |events| ==> !events[i].LauncherUpdated?
    ensures SavedOk(dirs, RunWith(orders, s, events))
  {
    RunAnyOrder(table, orders, dirs, s, events);
    RunKeepsSaved(dirs, s, events);
  }

  lemma SavedParts(dirs: Dirs, a: seq<string>, x: seq<string>, y: seq<string>, b: seq<string>)
    requires |x| <= 1 && |y| <= 1
    ensures var f, g := a + x + b, a + y + b;
            seq(|f|, i requires 0 <= i < |f| => DesktopPath.Zip(dirs, f[i]))
            == seq(|g|, i requires 0 <= i < |g| => DesktopPath.Zip(dirs, g[i])) <==>
            |x| == |y| && (|x| == 1 ==> DesktopPath.Zip(dirs, x[0]) == DesktopPath.Zip(dirs, y[0]))
  {
    var f, g := a + x + b, a + y + b;
    var zf := seq(|f|, i requires 0 <= i < |f| => DesktopPath.Zip(dirs, f[i]));
    var zg := seq(|g|, i requires 0 <= i < |g| => DesktopPath.Zip(dirs, g[i]));
    assert |zf| == |f| && |zg| == |g|;
    if |x| == |y| == 1 {
      assert f[|a|] == x[0] && g[|a|] == y[0];
      assert zf[|a|] == DesktopPath.Zip(dirs, x[0]) && zg[|a|] == DesktopPath.Zip(dirs, y[0]);
      assert forall i :: 0 <= i < |f| && i != |a| ==> f[i] == g[i];
    }
  }

  /** A launcher update replaces an entry's desktop file without saving: the list stays right exactly when it
      finds no entry, finds one that is not docked, or the file name does not change once zipped. */
  lemma LauncherUpdateExactly(dirs: Dirs, s: State, file: string, app: AppInfo)
    requires SavedOk(dirs, s)
    ensures SavedOk(dirs, Step(dirs, s, LauncherUpdated(file, Some(app)))) <==>
            var i := FindByPath(s.entries, false, file, Some(app.innerId));
            i >= 0 && s.entries[i].docked ==>
              s.entries[i].app.Some?
              && DesktopPath.Zip(dirs, app.file) == DesktopPath.Zip(dirs, s.entries[i].app.value.file)
  {
    var i := FindByPath(s.entries, false, file, Some(app.innerId));
    if i >= 0 {
      var e := s.entries[i].(app := Some(app), innerId := app.innerId);
      FilesReplace(s.entries, i, e);
      FilesSplit(s.entries, i);
      FilesOne(e);
      FilesOne(s.entries[i]);
      SavedParts(dirs, DockedFiles(s.entries[..i]), DockedFiles([e]), DockedFiles([s.entries[i]]),
                 DockedFiles(s.entries[i + 1..]));
    }
  }

  // ---- docking and undocking ----

  lemma SavedHas(dirs: Dirs, entries: seq<Entry>, i: nat)
    requires i < |entries| && entries[i].docked && entries[i].app.Some?
    ensures DesktopPath.Zip(dirs, entries[i].app.value.file) in Saved(dirs, entries)
  {
    FilesSplit(entries, i);
    FilesOne(entries[i]);
    var k := |DockedFiles(entries[..i])|;
    assert DockedFiles(entries)[k] == entries[i].app.value.file;
    assert Saved(dirs, entries)[k] == DesktopPath.Zip(dirs, entries[i].app.value.file);
  }

  /** Whether a dock request can succeed: nothing new has to be exported or written, or that works out. */
  predicate CanDock(s: State, app: AppInfo, scratch: Option<AppInfo>, exported: bool) {
    var i := FindInner(s.entries, app.innerId);
    var e := if i >= 0 then s.entries[i] else NewEntry(s.count, app.innerId, Some(app));
    (i >= 0 || exported) && (e.docked || !NeedScratch(e.app) || scratch.Some?)
  }

  /** The entry a dock request is about: the one with the application's inner id, or a new one at the index. */
  function Target(s: State, app: AppInfo, index: int): (i: nat)
    ensures i <= |s.entries|
  {
    var i := FindInner(s.entries, app.innerId);
    if i >= 0 then i else InsertIndex(|s.entries|, index)
  }

  /** A dock request that can succeed leaves its entry docked and its file saved, and the other entries
      alone; one that cannot leaves the entries and the saved list as they were. */
  lemma RequestDocksExactly(
    dirs: Dirs, s: State, app: AppInfo, index: int, scratch: Option<AppInfo>, exported: bool)
    requires Sound(s) && SavedOk(dirs, s)
    ensures var t, i := Request(dirs, s, app, index, scratch, exported), Target(s, app, index);
            if CanDock(s, app, scratch, exported) then
              && i < |t.entries| && t.entries[i].docked && t.entries[i].app.Some?
              && DesktopPath.Zip(dirs, t.entries[i].app.value.file) in t.saved
              && (if FindInner(s.entries, app.innerId) >= 0
                  then RemoveAt(t.entries, i) == RemoveAt(s.entries, i) && t.entries[i].windows == s.entries[i].windows
                  else RemoveAt(t.entries, i) == s.entries && t.entries[i].windows == {})
            else t.entries == s.entries && t.saved == s.saved
  {
    var t, i := Request(dirs, s, app, index, scratch, exported), Target(s, app, index);
    if FindInner(s.entries, app.innerId) >= 0 {
      RequestExisting(dirs, s, app, index, scratch, exported);
    } else {
      RequestNew(dirs, s, app, index, scratch, exported);
    }
    if CanDock(s, app, scratch, exported) {
      SavedHas(dirs, t.entries, i);
    }
  }

  lemma RequestExisting(dirs: Dirs, s: State, app: AppInfo, index: int, scratch: Option<AppInfo>, exported: bool)
    requires Sound(s) && SavedOk(dirs, s) && FindInner(s.entries, app.innerId) >= 0
    ensures var t, i := Request(dirs, s, app, index, scratch, exported), FindInner(s.entries, app.innerId);
            && SavedOk(dirs, t)
            && if CanDock(s, app, scratch, exported) then
                 && |t.entries| == |s.entries| && RemoveAt(t.entries, i) == RemoveAt(s.entries, i)
                 && t.entries[i].docked && t.entries[i].app.Some? && t.entries[i].windows == s.entries[i].windows
               else t.entries == s.entries
  {
    var i := FindInner(s.entries, app.innerId);
    ReplaceThenRemove(s.entries, i, Dock(s.entries[i], scratch).0);
  }

  lemma RequestNew(dirs: Dirs, s: State, app: AppInfo, index: int, scratch: Option<AppInfo>, exported: bool)
    requires SavedOk(dirs, s) && FindInner(s.entries, app.innerId) < 0
    ensures var t, i := Request(dirs, s, app, index, scratch, exported), InsertIndex(|s.entries|, index);
            && SavedOk(dirs, t)
            && if CanDock(s, app, scratch, exported) then
                 && i < |t.entries| && RemoveAt(t.entries, i) == s.entries
                 && t.entries[i].docked && t.entries[i].app.Some? && t.entries[i].windows == {}
               else t.entries == s.entries
  {
    var e := Dock(NewEntry(s.count, app.innerId, Some(app)), scratch).0;
    InsertThenRemove(s.entries, e, InsertIndex(|s.entries|, index));
  }

  lemma ReplaceThenRemove<T>(s: seq<T>, i: nat, x: T)
    requires i < |s|
    ensures RemoveAt(s[i := x], i) == RemoveAt(s, i)
  {
  }

  lemma InsertThenRemove<T>(s: seq<T>, x: T, i: nat)
    requires i <= |s|
    ensures |InsertAt(s, x, i)| == |s| + 1 && InsertAt(s, x, i)[i] == x && RemoveAt(InsertAt(s, x, i), i) == s
  {
  }

  /** Undocking the entry a dock request has added restores the entries and the saved list. */
  lemma UndockUndoesRequest(
    dirs: Dirs, s: State, app: AppInfo, index: int, scratch: Option<AppInfo>, innerId: string, known: Option<AppInfo>)
    requires Sound(s) && SavedOk(dirs, s)
    requires FindInner(s.entries, app.innerId) < 0 && CanDock(s, app, scratch, true)
    ensures var t, i := Request(dirs, s, app, index, scratch, true), Target(s, app, index);
            && i < |t.entries|
            && Undock(dirs, t, i, innerId, known).entries == s.entries
            && Undock(dirs, t, i, innerId, known).saved == s.saved
  {
    var t, i := Request(dirs, s, app, index, scratch, true), Target(s, app, index);
    SoundRequest(dirs, s, app, index, scratch, true);
    RequestNew(dirs, s, app, index, scratch, true);
    IndexIs(t.entries, i);
  }

  /** Undocking restores an entry with windows that was docked without writing a desktop file. */
  lemma UndockUndoesDock(
    dirs: Dirs, s: State, i: nat, scratch: Option<AppInfo>, innerId: string, known: Option<AppInfo>)
    requires Sound(s) && SavedOk(dirs, s) && i < |s.entries|
    requires !s.entries[i].docked && s.entries[i].windows != {}
    requires s.entries[i].app.Some? && s.entries[i].app.value.installed && !s.entries[i].app.value.scratch
    ensures var t := Step(dirs, s, DockEntry(s.entries[i].id, scratch));
            && i < |t.entries| && t.entries[i].docked
            && Undock(dirs, t, i, innerId, known) == s
  {
    IndexIs(s.entries, i);
    var t := Step(dirs, s, DockEntry(s.entries[i].id, scratch));
    assert t.entries == s.entries[i := s.entries[i].(docked := true)];
    assert t.entries[i := s.entries[i]] == s.entries;
  }

  /** What undocking leaves: the entry is gone if it had no window, otherwise it keeps them undocked, under the
      identity found for its current window if its application was a scratch file; the other entries keep
      their place and content. */
  lemma UndockLeaves(dirs: Dirs, s: State, i: nat, innerId: string, known: Option<AppInfo>)
    requires Sound(s) && i < |s.entries| && s.entries[i].docked
    ensures var e, r := s.entries[i], Undock(dirs, s, i, innerId, known).entries;
            if e.windows == {} then r == RemoveAt(s.entries, i)
            else |r| == |s.entries| && RemoveAt(r, i) == RemoveAt(s.entries, i)
                 && r[i].id == e.id && r[i].windows == e.windows && !r[i].docked
                 && (!e.app.value.scratch ==> r[i] == e.(docked := false))
                 && (e.app.value.scratch && e.current.Some? ==>
                       r[i].innerId == innerId && r[i].app == if e.app.value.hashed then None else known)
  {
    IndexIs(s.entries, i);
  }

  // ---- the front end's mirror of the entry list ----

  ghost predicate Mirrored(start: seq<nat>, s: State) {
    Replay(start, s.signals) == Ids(s.entries)
  }

  lemma AppendMirrors(start: seq<nat>, s: State, e: Entry, index: int)
    requires Mirrored(start, s)
    ensures Mirrored(start, Append(s, e, index))
  {
    var i := InsertIndex(|s.entries|, index);
    ReplayAppend(start, s.signals, EntryAdded(e.id, i));
    IdsOfInsert(s.entries, e, i);
  }

  lemma RemoveMirrors(start: seq<nat>, s: State, id: nat)
    requires Mirrored(start, s) && DistinctIds(s.entries)
    ensures Mirrored(start, RemoveEntry(s, id))
  {
    var i := IndexOf(s.entries, id);
    if i >= 0 {
      ReplayAppend(start, s.signals, EntryRemoved(id));
      IdsOfRemove(s.entries, i);
    }
  }

  lemma RestyleMirrors(start: seq<nat>, s: State, i: nat, e: Entry)
    requires Mirrored(start, s) && i < |s.entries| && e.id == s.entries[i].id
    ensures Ids(s.entries[i := e]) == Ids(s.entries)
  {
  }

  lemma AttachMirrors(start: seq<nat>, s: State, w: Window, exported: bool)
    requires Mirrored(start, s) && w in s.infos
    ensures Mirrored(start, AttachWindow(s, w, exported))
  {
    var info := s.infos[w];
    var i := FindInner(s.entries, info.entryInnerId);
    if i >= 0 {
      RestyleMirrors(start, s, i, Attach(s.entries[i], w, ActiveWin(s)));
    } else if exported {
      var e := Attach(NewEntry(s.count, info.entryInnerId, info.app), w, ActiveWin(s));
      AppendMirrors(start, s.(count := s.count + 1, infos := SetLink(s.infos, w, Some(e.id))), e, -1);
    }
  }

  lemma DetachMirrors(start: seq<nat>, s: State, w: Window, pick: Window)
    requires Mirrored(start, s) && Sound(s)
    ensures Mirrored(start, DetachWindow(s, w, pick))
  {
    var i := FindWindow(s.entries, w);
    if i >= 0 {
      var e := Detach(s.entries[i], w, pick, ActiveWin(s));
      RestyleMirrors(start, s, i, e);
      var t := s.(entries := s.entries[i := e], infos := SetLink(s.infos, w, None));
      if Removable(e) {
        ReplaceKeepsIds(s.entries, i, e);
        RemoveMirrors(start, t, e.id);
      }
    }
  }

  lemma AttachOrDetachMirrors(start: seq<nat>, s: State, w: Window, look: Look)
    requires Mirrored(start, s) && Sound(s) && w in s.infos
    ensures Mirrored(start, AttachOrDetach(s, w, look))
  {
    if s.infos[w].entry.Some? {
      DetachMirrors(start, s, w, look.pick);
    } else {
      AttachMirrors(start, Identify(s, w, look), w, look.exported);
    }
  }

  lemma UndockMirrors(dirs: Dirs, start: seq<nat>, s: State, i: nat, innerId: string, app: Option<AppInfo>)
    requires Mirrored(start, s) && Sound(s) && i < |s.entries|
    ensures Mirrored(start, Undock(dirs, s, i, innerId, app))
  {
    var e := s.entries[i];
    if e.docked && e.app.Some? {
      if e.windows == {} {
        RemoveMirrors(start, s, e.id);
      } else {
        RestyleMirrors(start, s, i, Released(e, innerId, app));
      }
    }
  }

  lemma RequestMirrors(
    dirs: Dirs, start: seq<nat>, s: State, app: AppInfo, index: int, scratch: Option<AppInfo>, exported: bool)
    requires Mirrored(start, s)
    ensures Mirrored(start, Request(dirs, s, app, index, scratch, exported))
  {
    var i := FindInner(s.entries, app.innerId);
    if i >= 0 {
      var (e, docked, failed) := Dock(s.entries[i], scratch);
      RestyleMirrors(start, s, i, e);
    } else {
      var (e, docked, failed) := Dock(NewEntry(s.count, app.innerId, Some(app)), scratch);
      if !failed && exported {
        AppendMirrors(start, s.(count := s.count + 1), e, index);
      }
    }
  }

  lemma TaskMirrors(start: seq<nat>, s: State, task: Task, look: Look)
    requires Mirrored(start, s) && Sound(s)
    ensures Mirrored(start, RunTask(s, task, look))
  {
    var w := task.win;
    if task.AddWin? {
      if look.reached {
        AttachOrDetachMirrors(start, Register(s, w), w, look);
      }
    } else if w in s.infos {
      DetachMirrors(start, s, w, look.pick);
    } else if FindWindow(s.entries, w) >= 0 {
      RemoveMirrors(start, s, s.entries[FindWindow(s.entries, w)].id);
    }
  }

  lemma PropertyMirrors(
    dirs: Dirs, start: seq<nat>, s: State, w: Window, idChanged: bool, need: bool, look: Look)
    requires Mirrored(start, s) && Sound(s) && w in s.infos
    ensures Mirrored(start, Step(dirs, s, Property(w, idChanged, need, look)))
  {
    var t := s;
    if idChanged {
      SoundDetach(s, w, look.pick);
      DetachMirrors(start, s, w, look.pick);
      t := Forget(DetachWindow(s, w, look.pick), w);
    }
    if w in t.infos {
      AttachOrDetachMirrors(start, t, w, look);
    }
  }

  ghost predicate Moves(s: State, e: Event) {
    e.MoveEntry? && e.index != e.newIndex && 0 <= e.index < |s.entries| && 0 <= e.newIndex < |s.entries|
  }

  lemma DockingMirrors(dirs: Dirs, start: seq<nat>, s: State, e: Event)
    requires Mirrored(start, s) && Sound(s) && IsDocking(e)
    ensures Mirrored(start, Step(dirs, s, e))
  {
    match e {
      case DockEntry(id, scratch) => DockMirrors(dirs, start, s, id, scratch);
      case UndockEntry(id, innerId, app) =>
        if IndexOf(s.entries, id) >= 0 {
          UndockMirrors(dirs, start, s, IndexOf(s.entries, id), innerId, app);
        }
      case RequestDock(wanted, index, scratch, exported) =>
        if wanted.Some? {
          RequestMirrors(dirs, start, s, wanted.value, index, scratch, exported);
        }
      case RequestUndock(file, hash, innerId, app) => UndockFileMirrors(dirs, start, s, file, hash, innerId, app);
      case LauncherUpdated(file, parsed) =>
        if parsed.Some? {
          UpdateMirrors(start, s, file, parsed.value);
        }
    }
  }

  lemma DockMirrors(dirs: Dirs, start: seq<nat>, s: State, id: nat, scratch: Option<AppInfo>)
    requires Mirrored(start, s)
    ensures Mirrored(start, Step(dirs, s, DockEntry(id, scratch)))
  {
    var i := IndexOf(s.entries, id);
    if i >= 0 {
      RestyleMirrors(start, s, i, Dock(s.entries[i], scratch).0);
    }
  }

  lemma UndockFileMirrors(
    dirs: Dirs, start: seq<nat>, s: State, file: string, hash: Option<string>, innerId: string, app: Option<AppInfo>)
    requires Mirrored(start, s) && Sound(s)
    ensures Mirrored(start, UndockFile(dirs, s, file, hash, innerId, app))
  {
    var i := FindByPath(s.entries, true, file, hash);
    if i >= 0 {
      UndockMirrors(dirs, start, s, i, innerId, app);
    }
  }

  lemma UpdateMirrors(start: seq<nat>, s: State, file: string, app: AppInfo)
    requires Mirrored(start, s)
    ensures Mirrored(start, Update(s, file, app))
  {
    var i := FindByPath(s.entries, false, file, Some(app.innerId));
    if i >= 0 {
      RestyleMirrors(start, s, i, s.entries[i].(app := Some(app), innerId := app.innerId));
    }
  }

  lemma WindowMirrors(dirs: Dirs, start: seq<nat>, s: State, e: Event)
    requires Mirrored(start, s) && Sound(s) && !IsDocking(e) && !e.MoveEntry?
    ensures Mirrored(start, Step(dirs, s, e))
  {
    match e {
      case Pop(look) =>
        if s.queue != [] {
          TaskMirrors(start, s.(queue := s.queue[1..]), s.queue[0], look);
        }
      case Property(w, idChanged, need, look) =>
        if w in s.infos {
          PropertyMirrors(dirs, start, s, w, idChanged, need, look);
        }
      case Destroy(w, pick) =>
        if w in s.infos {
          DetachMirrors(start, s, w, pick);
        }
      case ActiveWindow(w) => assert Ids(ActivateAll(s.entries, w)) == Ids(s.entries);
      case _ =>
    }
  }

  /** A listener that replays the signals has the entry list after each step, unless the step is a
      successful move, which sends none. */
  lemma StepMirrorsExactly(dirs: Dirs, start: seq<nat>, s: State, e: Event)
    requires Mirrored(start, s) && Sound(s)
    ensures Mirrored(start, Step(dirs, s, e)) <==> !Moves(s, e)
  {
    if Moves(s, e) {
      MoveBreaksMirror(s.entries, e.index, e.newIndex);
    } else if IsDocking(e) {
      DockingMirrors(dirs, start, s, e);
    } else if !e.MoveEntry? {
      WindowMirrors(dirs, start, s, e);
    }
  }

  /** So over every run without moves the mirror is exact, whether or not exports succeed. */
  lemma {:induction false} RunMirrors(orders: seq<Dirs>, start: seq<nat>, s: State, events: seq<Event>)
    requires Mirrored(start, s) && Sound(s) && |orders| == |events|
    requires forall i :: 0 <= i < |events| ==> !events[i].MoveEntry?
    ensures Mirrored(start, RunWith(orders, s, events))
    decreases |events|
  {
    if events != [] {
      StepKeepsSound(orders[0], s, events[0]);
      StepMirrorsExactly(orders[0], start, s, events[0]);
      RunMirrors(orders[1..], start, Step(orders[0], s, events[0]), events[1..]);
    }
  }

  // ---- from the start ----

  lemma {:induction false} AttachAllMirrors(
    start: seq<nat>, s: State, list: seq<Window>, looks: seq<Look>)
    requires |looks| == |list| && Sound(s) && Mirrored(start, s)
    ensures var t := AttachAll(s, list, looks); Sound(t) && Untouched(s, t) && Mirrored(start, t)
    decreases |list|
  {
    if list != [] {
      var t := Register(s, list[0]);
      SoundAttachOrDetach(t, list[0], looks[0]);
      AttachOrDetachUntouched(t, list[0], looks[0]);
      AttachOrDetachMirrors(start, t, list[0], looks[0]);
      AttachAllMirrors(start, AttachOrDetach(t, list[0], looks[0]), list[1..], looks[1..]);
    }
  }

  lemma StartSavedAndMirrored(dirs: Dirs, apps: seq<AppInfo>, list: seq<Window>, looks: seq<Look>)
    requires |looks| == |list|
    ensures var s := Start(dirs, apps, list, looks); Sound(s) && SavedOk(dirs, s) && Mirrored(Ids(Docked(apps, 0)), s)
  {
    DockedOk(apps, 0);
    AttachAllMirrors(Ids(Docked(apps, 0)), BeforeWindows(dirs, apps, list), list, looks);
  }

  /** From start-up on, in every interleaving, for every iteration order of each step and whether or not
      exports succeed: without launcher updates the saved list names the docked entries, and a listener that
      knew the applications docked at start has the entry list as long as nothing is moved. */
  lemma SavedAndMirroredFromStart(
    table: DesktopPath.Table, orders: seq<Dirs>, dirs: Dirs,
    apps: seq<AppInfo>, list: seq<Window>, looks: seq<Look>, events: seq<Event>)
    requires DesktopPath.Visits(dirs, table)
    requires |orders| == |events| && forall i :: 0 <= i < |orders| ==> DesktopPath.Visits(orders[i], table)
    requires |looks| == |list|
    ensures var t := RunWith(orders, Start(dirs, apps, list, looks), events);
            && ((forall i :: 0 <= i < |events| ==> !events[i].LauncherUpdated?) ==> Names(table, t.entries, t.saved))
            && ((forall i :: 0 <= i < |events| ==> !events[i].MoveEntry?) ==> Mirrored(Ids(Docked(apps, 0)), t))
  {
    var s := Start(dirs, apps, list, looks);
    StartSavedAndMirrored(dirs, apps, list, looks);
    SavedNames(table, dirs, s.entries);
    if forall i :: 0 <= i < |events| ==> !events[i].LauncherUpdated? {
      RunKeepsNames(table, orders, s, events);
    }
    if forall i :: 0 <= i < |events| ==> !events[i].MoveEntry? {
      RunMirrors(orders, Ids(Docked(apps, 0)), s, events);
    }
  }
}
