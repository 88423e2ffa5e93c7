/** The dock's objects: AppEntry and Manager with the fields the handlers update in place. Every method is
    proved to do what the step system says, up to the iteration order behind the saved names, so all that is
    proved about runs of steps holds of them. */
module DockManager {
  import opened Collections
  import opened WindowSlice
  import opened DockEntries
  import opened DockModel
  import opened DockInvariant
  import opened DockedApps
  import DesktopPath

  /** Naming one more docked entry. */
  lemma NamesStep(table: DesktopPath.Table, entries: seq<Entry>, i: nat, names: seq<string>)
    requires i < |entries| && Names(table, entries[..i], names)
    ensures !(entries[i].app.Some? && entries[i].docked) ==> Names(table, entries[..i + 1], names)
    ensures forall name ::
              entries[i].app.Some? && entries[i].docked && IsName(table, entries[i].app.value.file, name) ==>
              Names(table, entries[..i + 1], names + [name])
  {
    assert entries[..i + 1] == entries[..i] + [entries[i]];
    FilesConcat(entries[..i], [entries[i]]);
    FilesOne(entries[i]);
    var files := DockedFiles(entries[..i]);
    assert files + [] == files;
  }

  lemma RemovedAt<T>(s: seq<T>, i: nat)
    requires i < |s|
    ensures |RemoveAt(s, i)| == |s| - 1
    ensures forall k :: 0 <= k < |s| - 1 ==> RemoveAt(s, i)[k] == s[if k < i then k else k + 1]
  {
  }

  /** Taking an object out of the list, seen on the list of their values. */
  lemma RemoveKeepsDistinct<T>(s: seq<T>, i: nat)
    requires i < |s| && forall k, l :: 0 <= k < l < |s| ==> s[k] != s[l]
    ensures var r := RemoveAt(s, i); forall k, l :: 0 <= k < l < |r| ==> r[k] != r[l]
    ensures var r := RemoveAt(s, i); forall k :: 0 <= k < |r| ==> r[k] in s
  {
    var r := RemoveAt(s, i);
    assert forall k :: 0 <= k < |r| ==> r[k] == s[if k < i then k else k + 1];
  }

  /** Detaching leaves nothing for the second part of handlePropertyNotifyEvent to pick. */
  lemma PropertyPicks(s: State, w: Window, look: Look, p: Window, q: Window)
    requires Inv(s) && w in s.infos
    ensures var t := Forget(DockModel.DetachWindow(s, w, p), w);
            w in t.infos && AttachOrDetach(t, w, look.(pick := q)) == AttachOrDetach(t, w, look.(pick := p))
  {
    DetachWindowKeeps(s, w, p);
    assert !Stray(s, w) && !Stray(DockModel.DetachWindow(s, w, p), w);
    var t := Forget(DockModel.DetachWindow(s, w, p), w);
    assert t.infos[w].entry == None;
  }

  class AppEntry {
    const id: nat
    var innerId: string
    var windows: set<Window>
    var current: Option<Window>
    var infos: set<Window>
    var active: bool
    var docked: bool
    var app: Option<AppInfo>

    ghost function View(): Entry
      reads this
    {
      Entry(id, innerId, windows, current, infos, active, docked, app)
    }

    constructor (id: nat, innerId: string, app: Option<AppInfo>)
      ensures View() == NewEntry(id, innerId, app)
    {
      this.id, this.innerId, this.app := id, innerId, app;
      windows, current, infos, active, docked := {}, None, {}, false, false;
    }

    method UpdateIsActive(activeWindow: Option<Window>)
      modifies this`active
      ensures active == IsActive(activeWindow, windows)
    {
      active := false;
      if activeWindow.Some? {
        active := activeWindow.value in windows;
      }
    }

    /** updateWindowInfos: one exported record per window. */
    method UpdateWindowInfos()
      modifies this`infos
      ensures infos == windows
    {
      var todo := windows;
      infos := {};
      while todo != {}
        invariant todo <= windows && infos == windows - todo
        decreases |todo|
      {
        assert (forall x :: x !in todo) ==> todo == {};
        var w :| w in todo;
        todo := todo - {w};
        infos := infos + {w};
      }
    }

    method AttachWindow(w: Window, activeWindow: Option<Window>) returns (ok: bool)
      modifies this
      ensures View() == Attach(old(View()), w, activeWindow)
      ensures ok <==> w !in old(windows)
    {
      if w in windows {
        return false;
      }
      windows := windows + {w};
      UpdateWindowInfos();
      UpdateIsActive(activeWindow);
      if current == None {
        current := Some(w);
      }
      return true;
    }

    /** The second branch of undockEntry: the entry has windows and stays. */
    method Release(newInnerId: string, newApp: Option<AppInfo>)
      requires app.Some?
      modifies this
      ensures View() == Released(old(View()), newInnerId, newApp)
    {
      if app.value.scratch && current != None {
        innerId := newInnerId;
        app := if app.value.hashed then None else newApp;
      }
      docked := false;
    }

    /** detachWindow; the new current window is whichever the map iteration yields first. */
    method DetachWindow(w: Window, activeWindow: Option<Window>) returns (needRemove: bool, pick: Window)
      modifies this
      ensures View() == Detach(old(View()), w, pick, activeWindow)
      ensures needRemove == Removable(View())
    {
      pick := 0;
      windows := windows - {w};
      if windows == {} {
        if !docked {
          return true, pick;
        }
        current := None;
      } else {
        assert (forall x :: x !in windows) ==> windows == {};
        pick :| pick in windows;
        current := Some(pick);
      }
      UpdateWindowInfos();
      UpdateIsActive(activeWindow);
      return false, pick;
    }
  }

  class Manager {
    const table: DesktopPath.Table
    /** The iteration order to state the saved names in, for directories where it makes no difference. */
    ghost const dirs: Dirs
    var clients: seq<Window>
    var infos: map<Window, WinInfo>
    var items: seq<AppEntry>
    var active: Option<Window>
    var previous: Option<Window>
    var queue: seq<Task>
    var count: nat
    var saved: seq<string>
    var signals: seq<Signal>
    /** What the listed entries look like; tied to the objects by Valid. */
    ghost var entries: seq<Entry>

    ghost predicate Valid()
      reads this, items
    {
      && |entries| == |items|
      && (forall i :: 0 <= i < |items| ==> items[i].View() == entries[i])
      && (forall i, j :: 0 <= i < j < |items| ==> items[i] != items[j])
    }

    /** The manager is in state t, except that the names of a list saved on the way may each come from an
        iteration order of their own. */
    ghost predicate Reached(t: State)
      reads this
    {
      && View() == t.(saved := saved)
      && (View() == t || Names(table, entries, saved))
      && (DesktopPath.OrderFree(table, dirs) ==> View() == t)
    }

    ghost function View(): State
      reads this
    {
      State(clients, infos, entries, active, previous, queue, count, saved, signals)
    }

    constructor (table: DesktopPath.Table, ghost dirs: Dirs)
      ensures Valid() && View() == State([], map[], [], None, None, [], 0, [], [])
      ensures this.table == table && this.dirs == dirs
    {
      this.table, this.dirs := table, dirs;
      clients, infos, items, active, previous, queue := [], map[], [], None, None, [];
      count, saved, signals := 0, [], [];
      entries := [];
    }

    // ---- lookups ----

    method GetByInnerId(innerId: string) returns (i: int)
      requires Valid()
      ensures i == FindInner(entries, innerId)
    {
      i := 0;
      while i < |items|
        invariant 0 <= i <= |items|
        invariant FindInner(entries, innerId) ==
                  (if FindInner(entries[i..], innerId) < 0 then -1 else i + FindInner(entries[i..], innerId))
      {
        assert entries[i..][0] == items[i].View() && entries[i..][1..] == entries[i + 1..];
        if items[i].innerId == innerId {
          return;
        }
        i := i + 1;
      }
      assert entries[i..] == [];
      i := -1;
    }

    method GetByWindowId(w: Window) returns (i: int)
      requires Valid()
      ensures i == FindWindow(entries, w)
    {
      i := 0;
      while i < |items|
        invariant 0 <= i <= |items|
        invariant forall k :: 0 <= k < i ==> w !in entries[k].windows
      {
        assert items[i].View() == entries[i];
        if w in items[i].windows {
          return;
        }
        i := i + 1;
      }
      i := -1;
    }

    /** indexOf keeps going after a match, so the last one wins. */
    method IndexOfId(id: nat) returns (index: int)
      requires Valid()
      ensures index == IndexOf(entries, id)
    {
      index := -1;
      var i := 0;
      while i < |items|
        invariant 0 <= i <= |items|
        invariant -1 <= index < i
        invariant index >= 0 ==> entries[index].id == id
        invariant forall k :: index < k < i ==> entries[k].id != id
      {
        assert items[i].View() == entries[i];
        if items[i].id == id {
          index := i;
        }
        i := i + 1;
      }
    }

    /** The first loop of getByDesktopFilePath; only docked entries are searched when they are asked for. */
    method FindSameFile(dockedOnly: bool, file: string) returns (i: int)
      requires Valid()
      ensures i == FindFile(entries, dockedOnly, file)
    {
      i := 0;
      while i < |items|
        invariant 0 <= i <= |items|
        invariant FindFile(entries, dockedOnly, file) ==
                  (if FindFile(entries[i..], dockedOnly, file) < 0 then -1
                   else i + FindFile(entries[i..], dockedOnly, file))
      {
        assert entries[i..][0] == items[i].View() && entries[i..][1..] == entries[i + 1..];
        if items[i].app.Some? && (!dockedOnly || items[i].docked) && items[i].app.value.file == file {
          return;
        }
        i := i + 1;
      }
      assert entries[i..] == [];
      i := -1;
    }

    /** Its second loop. */
    method FindSameHash(dockedOnly: bool, hash: string) returns (i: int)
      requires Valid()
      ensures i == FindHash(entries, dockedOnly, hash)
    {
      i := 0;
      while i < |items|
        invariant 0 <= i <= |items|
        invariant FindHash(entries, dockedOnly, hash) ==
                  (if FindHash(entries[i..], dockedOnly, hash) < 0 then -1
                   else i + FindHash(entries[i..], dockedOnly, hash))
      {
        assert entries[i..][0] == items[i].View() && entries[i..][1..] == entries[i + 1..];
        if items[i].app.Some? && (!dockedOnly || items[i].docked) && items[i].app.value.innerId == hash {
          return;
        }
        i := i + 1;
      }
      assert entries[i..] == [];
      i := -1;
    }

    method GetByDesktopFilePath(dockedOnly: bool, file: string, hash: Option<string>) returns (i: int)
      requires Valid()
      ensures i == FindByPath(entries, dockedOnly, file, hash)
    {
      i := FindSameFile(dockedOnly, file);
      if i < 0 && hash.Some? {
        i := FindSameHash(dockedOnly, hash.value);
      }
    }

    /** getActiveWindow. */
    method GetActiveWindow() returns (w: Option<Window>)
      ensures w == ActiveWin(View())
    {
      w := active;
      if w == None {
        w := previous;
      }
    }

    // ---- list edits ----

    method Insert(entry: AppEntry, index: int)
      requires Valid() && entry !in items
      modifies this`items, this`signals, this`entries
      ensures Valid() && View() == Append(old(View()), entry.View(), index)
      ensures items == InsertAt(old(items), entry, InsertIndex(|old(items)|, index))
    {
      var i := index;
      if i < 0 || i >= |items| {
        i := |items|;
        items := items + [entry];
      } else {
        items := items[..i] + ([entry] + items[i..]);
      }
      entries := InsertAt(entries, entry.View(), i);
      signals := signals + [EntryAdded(entry.id, i)];
      assert items == InsertAt(old(items), entry, i);
    }

    method Remove(id: nat)
      requires Valid()
      modifies this`items, this`signals, this`entries
      ensures Valid() && View() == RemoveEntry(old(View()), id)
      ensures forall k :: 0 <= k < |items| ==> items[k] in old(items)
    {
      var index := IndexOfId(id);
      if index != -1 {
        RemoveKeepsDistinct(items, index);
        RemovedAt(items, index);
        RemovedAt(entries, index);
        items := RemoveAt(items, index);
        entries := RemoveAt(entries, index);
        signals := signals + [EntryRemoved(id)];
      }
    }

    method MoveItem(index: int, newIndex: int) returns (ok: bool)
      requires Valid()
      modifies this`items, this`entries
      ensures Valid()
      ensures ok <==> index != newIndex && 0 <= index < |old(entries)| && 0 <= newIndex < |old(entries)|
      ensures entries == if ok then Moved(old(entries), index, newIndex) else old(entries)
    {
      if index == newIndex {
        return false;
      }
      if 0 <= index < |items| && 0 <= newIndex < |items| {
        var entry := items[index];
        var removed := items[..index] + items[index + 1..];
        items := removed[..newIndex] + ([entry] + removed[newIndex..]);
        entries := Moved(entries, index, newIndex);
        assert items == Moved(old(items), index, newIndex);
        MovedAt(old(items), index, newIndex);
        MovedAt(old(entries), index, newIndex);
        return true;
      }
      return false;
    }

    // ---- windows ----

    method RegisterWindow(w: Window)
      modifies this`infos
      ensures View() == Register(old(View()), w)
    {
      if w !in infos {
        infos := infos[w := WinInfo(None, "", None)];
      }
    }

    /** The first branch of attachWindow: the entry exists. */
    method AttachTo(i: nat, w: Window)
      requires Valid() && w in infos && i < |items|
      modifies this`infos, this`entries, items[i]
      ensures Valid()
      ensures View() == old(View()).(entries := old(entries)[i := Attach(old(entries)[i], w, ActiveWin(old(View())))],
                                     infos := SetLink(old(infos), w, Some(old(entries)[i].id)))
    {
      var activeWin := GetActiveWindow();
      var _ := items[i].AttachWindow(w, activeWin);
      infos := infos[w := infos[w].(entry := Some(items[i].id))];
      entries := entries[i := items[i].View()];
    }

    /** The second branch: a new entry, listed if it could be exported. */
    method AttachNew(w: Window, exported: bool)
      requires Valid() && w in infos && FindInner(entries, infos[w].entryInnerId) < 0
      modifies this
      ensures Valid() && View() == DockModel.AttachWindow(old(View()), w, exported)
      ensures forall k :: 0 <= k < |items| ==> items[k] in old(items) || fresh(items[k])
    {
      var info := infos[w];
      var entry := new AppEntry(count, info.entryInnerId, info.app);
      count := count + 1;
      var activeWin := GetActiveWindow();
      var _ := entry.AttachWindow(w, activeWin);
      infos := infos[w := info.(entry := Some(entry.id))];
      if exported {
        Insert(entry, -1);
      }
    }

    method AttachWindow(w: Window, exported: bool)
      requires Valid() && w in infos
      modifies this, items
      ensures Valid() && View() == DockModel.AttachWindow(old(View()), w, exported)
      ensures forall k :: 0 <= k < |items| ==> items[k] in old(items) || fresh(items[k])
    {
      var i := GetByInnerId(infos[w].entryInnerId);
      if i >= 0 {
        AttachTo(i, w);
      } else {
        AttachNew(w, exported);
      }
    }

    method DetachWindow(w: Window) returns (pick: Window)
      requires Valid() && w in infos
      modifies this, items
      ensures Valid() && View() == DockModel.DetachWindow(old(View()), w, pick)
      ensures w in infos && forall k :: 0 <= k < |items| ==> items[k] in old(items)
    {
      pick := 0;
      var i := GetByWindowId(w);
      if i >= 0 {
        var entry := items[i];
        var needRemove;
        var activeWin := GetActiveWindow();
        needRemove, pick := entry.DetachWindow(w, activeWin);
        infos := infos[w := infos[w].(entry := None)];
        entries := entries[i := entry.View()];
        if needRemove {
          Remove(entry.id);
        }
      }
    }

    method AttachOrDetachWindow(w: Window, look: Look) returns (pick: Window)
      requires Valid() && w in infos
      modifies this, items
      ensures Valid() && View() == AttachOrDetach(old(View()), w, look.(pick := pick))
    {
      pick := 0;
      var showOnDock := w in clients && look.show;
      if infos[w].entry != None {
        if !showOnDock {
          pick := DetachWindow(w);
        }
      } else {
        if infos[w].entryInnerId == "" {
          infos := infos[w := infos[w].(entryInnerId := look.innerId, app := look.app)];
        }
        if w in clients && look.showAgain {
          AttachWindow(w, look.exported);
        }
      }
    }

    // ---- events ----

    /** handleClientListChanged, with the client list already sorted. */
    method HandleClientListChanged(list: seq<Window>)
      modifies this`clients, this`queue
      ensures View() == ChangeClients(old(View()), list)
    {
      var add, remove := DiffSortedWindowSlice(clients, list);
      ghost var before := queue;
      clients := list;
      var i := 0;
      while i < |add|
        invariant 0 <= i <= |add|
        invariant clients == list && queue == before + Tasks(add[..i], [])
      {
        assert Tasks(add[..i + 1], []) == Tasks(add[..i], []) + [AddWin(add[i])];
        queue := queue + [AddWin(add[i])];
        i := i + 1;
      }
      assert add[..i] == add;
      i := 0;
      while i < |remove|
        invariant 0 <= i <= |remove|
        invariant clients == list && queue == before + Tasks(add, remove[..i])
      {
        assert Tasks(add, remove[..i + 1]) == Tasks(add, remove[..i]) + [RemoveWin(remove[i])];
        queue := queue + [RemoveWin(remove[i])];
        i := i + 1;
      }
      assert remove[..i] == remove;
    }

    /** The closure queued for an added window. */
    method RunAdd(w: Window, look: Look) returns (pick: Window)
      requires Valid()
      modifies this, items
      ensures Valid() && View() == RunTask(old(View()), AddWin(w), look.(pick := pick))
    {
      pick := 0;
      RegisterWindow(w);
      if look.reached {
        pick := AttachOrDetachWindow(w, look);
      }
    }

    /** The closure queued for a removed window. */
    method RunRemove(w: Window, ghost look: Look) returns (pick: Window)
      requires Valid()
      modifies this, items
      ensures Valid() && View() == RunTask(old(View()), RemoveWin(w), look.(pick := pick))
    {
      pick := 0;
      if w in infos {
        pick := DetachWindow(w);
        infos := infos[w := infos[w].(entryInnerId := "")];
      } else {
        var i := GetByWindowId(w);
        if i >= 0 && !items[i].docked {
          Remove(items[i].id);
        }
      }
    }

    /** One round of accessEntries: take the next closure and run it. */
    method AccessEntry(look: Look) returns (pick: Window)
      requires Valid() && queue != []
      modifies this, items
      ensures Valid() && View() == PopTask(old(View()), look.(pick := pick))
    {
      var task := queue[0];
      queue := queue[1..];
      match task {
        case AddWin(w) => pick := RunAdd(w, look);
        case RemoveWin(w) => pick := RunRemove(w, look);
      }
    }

    /** The detach and re-attach part of handlePropertyNotifyEvent. */
    method HandlePropertyNotify(w: Window, idChanged: bool, need: bool, look: Look)
      returns (first: Window, pick: Window)
      requires Valid()
      modifies this, items
      ensures Valid()
      ensures w !in old(infos) ==> View() == old(View())
      ensures w in old(infos) ==>
                var t := if idChanged then Forget(DockModel.DetachWindow(old(View()), w, first), w) else old(View());
                && w in t.infos
                && View() == if idChanged || need then AttachOrDetach(t, w, look.(pick := pick)) else t
      ensures Inv(old(View())) ==>
                var used := if idChanged then first else pick;
                View() == ChangeProperty(old(View()), w, idChanged, need, look.(pick := used))
    {
      first, pick := 0, 0;
      if w !in infos {
        return;
      }
      if idChanged {
        first := DetachWindow(w);
        infos := infos[w := infos[w].(entryInnerId := "")];
      }
      if idChanged || need {
        pick := AttachOrDetachWindow(w, look);
      }
      if idChanged && Inv(old(View())) {
        PropertyPicks(old(View()), w, look, first, pick);
      }
    }

    method HandleDestroyNotify(w: Window) returns (pick: Window)
      requires Valid()
      modifies this, items
      ensures Valid() && View() == DestroyWindow(old(View()), w, pick)
    {
      pick := 0;
      if w in infos {
        pick := DetachWindow(w);
      }
      assert View() == if w in old(infos) then DockModel.DetachWindow(old(View()), w, pick) else old(View());
      infos := infos - {w};
    }

    method HandleActiveWindowChanged(w: Window)
      requires Valid()
      modifies this`active, this`previous, this`entries, items
      ensures Valid() && View() == ChangeActive(old(View()), w)
    {
      if w !in infos {
        previous := active;
        active := None;
        return;
      }
      active := Some(w);
      ghost var was := entries;
      var i := 0;
      while i < |items|
        modifies items
        invariant 0 <= i <= |items|
        invariant forall k :: 0 <= k < |items| ==> items[k].View() == if k < i then Activate(was[k], w) else was[k]
      {
        var entry := items[i];
        if w in entry.windows {
          entry.active := true;
          entry.current := Some(w);
        } else {
          entry.active := false;
        }
        i := i + 1;
      }
      entries := ActivateAll(was, w);
    }

    // ---- docking ----

    method SaveDockedApps()
      requires Valid()
      modifies this`saved
      ensures Valid() && Names(table, entries, saved) && Reached(Save(dirs, old(View())))
    {
      var list: seq<string> := [];
      var i := 0;
      while i < |items|
        invariant 0 <= i <= |items|
        invariant Names(table, entries[..i], list)
      {
        assert entries[i] == items[i].View();
        NamesStep(table, entries, i, list);
        if items[i].app.Some? && items[i].docked {
          var order := DesktopPath.AnyOrder(table);
          var name := DesktopPath.ZipDesktopPath(order, items[i].app.value.file);
          list := list + [name];
        }
        i := i + 1;
      }
      assert entries[..i] == entries;
      saved := list;
      if DesktopPath.OrderFree(table, dirs) {
        SavedAnyOrder(table, dirs, entries, saved);
      }
    }

    /** dockEntry. */
    static method DockAppEntry(entry: AppEntry, scratch: Option<AppInfo>) returns (docked: bool, failed: bool)
      modifies entry
      ensures (entry.View(), docked, failed) == Dock(old(entry.View()), scratch)
    {
      if entry.docked {
        return false, false;
      }
      if NeedScratch(entry.app) {
        if scratch == None {
          return false, true;
        }
        entry.app := scratch;
        entry.innerId := scratch.value.innerId;
      }
      entry.docked := true;
      return true, false;
    }

    /** undockEntry on the entry at position i. */
    method UndockAppEntry(i: nat, innerId: string, app: Option<AppInfo>)
      requires Valid() && i < |entries|
      modifies this, items
      ensures Valid() && Reached(Undock(dirs, old(View()), i, innerId, app))
    {
      var entry := items[i];
      assert entry.View() == entries[i];
      if !entry.docked || entry.app == None {
        return;
      }
      if entry.windows == {} {
        Remove(entry.id);
      } else {
        entry.Release(innerId, app);
        entries := entries[i := entry.View()];
      }
      SaveDockedApps();
    }

    /** requestDock when an entry with this inner id exists, and AppEntry.RequestDock. */
    method DockExisting(i: nat, scratch: Option<AppInfo>) returns (docked: bool)
      requires Valid() && i < |entries|
      modifies this`saved, this`entries, items[i]
      ensures Valid()
      ensures var (e, d, _) := Dock(old(entries)[i], scratch);
              && docked == d
              && Reached(if d then Save(dirs, old(View()).(entries := old(entries)[i := e])) else old(View()))
    {
      var failed;
      assert items[i].View() == entries[i];
      docked, failed := DockAppEntry(items[i], scratch);
      entries := entries[i := items[i].View()];
      if docked {
        SaveDockedApps();
      } else {
        assert entries == old(entries);
      }
    }

    method DockNew(app: AppInfo, index: int, scratch: Option<AppInfo>, exported: bool) returns (docked: bool)
      requires Valid() && FindInner(entries, app.innerId) < 0
      modifies this
      ensures Valid() && Reached(Request(dirs, old(View()), app, index, scratch, exported))
    {
      var entry := new AppEntry(count, app.innerId, Some(app));
      count := count + 1;
      var failed;
      docked, failed := DockAppEntry(entry, scratch);
      if failed || !exported {
        return false;
      }
      assert docked && entry !in items && Valid();
      ListDocked(entry, index);
    }

    /** The end of requestDock for a new entry. */
    method ListDocked(entry: AppEntry, index: int)
      requires Valid() && entry !in items
      modifies this`items, this`signals, this`entries, this`saved
      ensures Valid() && Reached(Save(dirs, Append(old(View()), entry.View(), index)))
    {
      Insert(entry, index);
      SaveDockedApps();
    }

    /** requestDock for a desktop file that could be parsed. */
    method RequestDockApp(app: AppInfo, index: int, scratch: Option<AppInfo>, exported: bool) returns (docked: bool)
      requires Valid()
      modifies this, items
      ensures Valid() && Reached(Request(dirs, old(View()), app, index, scratch, exported))
    {
      var i := GetByInnerId(app.innerId);
      if i >= 0 {
        docked := DockExisting(i, scratch);
      } else {
        docked := DockNew(app, index, scratch, exported);
      }
    }

    /** requestUndock, and handleLauncherItemDeleted when there is no hash. */
    method RequestUndockFile(file: string, hash: Option<string>, innerId: string, app: Option<AppInfo>)
      requires Valid()
      modifies this, items
      ensures Valid() && Reached(UndockFile(dirs, old(View()), file, hash, innerId, app))
    {
      var i := GetByDesktopFilePath(true, file, hash);
      ghost var was := View();
      if i >= 0 {
        UndockAppEntry(i, innerId, app);
        assert Reached(Undock(dirs, was, i, innerId, app));
      }
    }

    /** handleLauncherItemUpdated. */
    method HandleLauncherItemUpdated(file: string, parsed: Option<AppInfo>)
      requires Valid()
      modifies this`entries, items
      ensures Valid() && View() == if parsed.None? then old(View()) else Update(old(View()), file, parsed.value)
    {
      if parsed == None {
        return;
      }
      var i := GetByDesktopFilePath(false, file, Some(parsed.value.innerId));
      if i >= 0 {
        assert items[i].View() == entries[i];
        items[i].app := parsed;
        items[i].innerId := parsed.value.innerId;
        entries := entries[i := items[i].View()];
      }
    }

    method MoveEntryTo(index: int, newIndex: int)
      requires Valid()
      modifies this
      ensures Valid() && Reached(MoveTo(dirs, old(View()), index, newIndex))
    {
      var ok := MoveItem(index, newIndex);
      if ok {
        SaveDockedApps();
      }
    }
  }
}
