/** The dock manager as a step system (dock/dock_manager_xevent.go, dock/dock_manager_entries.go,
    dock/dock_manager_dock_app.go, dock/dock_manager.go). Each handler, each queued closure and each
    D-Bus request is one step; what the steps learn from the X server and the file system arrives with
    the event, so every answer is possible. */
module DockModel {
  import opened Collections
  import opened WindowSlice
  import opened DockEntries
  import DesktopPath

  /** A registered window: the entry it is attached to and what it was identified as ("" if not yet). */
  datatype WinInfo = WinInfo(entry: Option<nat>, entryInnerId: string, app: Option<AppInfo>)

  /** A closure waiting in entryDealChan. */
  datatype Task = AddWin(win: Window) | RemoveWin(win: Window)

  datatype State = State(
    clients: seq<Window>,
    infos: map<Window, WinInfo>,
    entries: seq<Entry>,
    active: Option<Window>,
    previous: Option<Window>,
    queue: seq<Task>,
    count: nat,
    saved: seq<string>,
    signals: seq<Signal>)

  /** What attaching a window finds out: whether the identification loop got through to the attach, the
      window's part of shouldShowOnDock (alive and not to be skipped) before and after identification,
      what it was identified as, whether a new entry could be exported, and a map iteration's first pick. */
  datatype Look = Look(reached: bool, show: bool, showAgain: bool,
                       innerId: string, app: Option<AppInfo>, exported: bool, pick: Window)

  datatype Event =
    | ClientList(list: seq<Window>)
    | Pop(look: Look)
    | Property(win: Window, idChanged: bool, need: bool, look: Look)
    | Destroy(win: Window, pick: Window)
    | Map(win: Window)
    | ActiveWindow(win: Window)
    | DockEntry(id: nat, scratch: Option<AppInfo>)
    | UndockEntry(id: nat, innerId: string, app: Option<AppInfo>)
    | RequestDock(wanted: Option<AppInfo>, index: int, scratch: Option<AppInfo>, exported: bool)
    | RequestUndock(file: string, hash: Option<string>, innerId: string, app: Option<AppInfo>)
    | MoveEntry(index: int, newIndex: int)
    | LauncherUpdated(file: string, parsed: Option<AppInfo>)

  /** getActiveWindow: right after the active window is gone, the one before it still counts. */
  function ActiveWin(s: State): Option<Window> {
    if s.active.Some? then s.active else s.previous
  }

  // ---- the entry list ----

  function Append(s: State, e: Entry, index: int): State {
    var i := InsertIndex(|s.entries|, index);
    s.(entries := InsertAt(s.entries, e, i), signals := s.signals + [EntryAdded(e.id, i)])
  }

  /** removeAppEntry: Remove looks the entry up by id. */
  function RemoveEntry(s: State, id: nat): State {
    var i := IndexOf(s.entries, id);
    if i < 0 then s else s.(entries := RemoveAt(s.entries, i), signals := s.signals + [EntryRemoved(id)])
  }

  // ---- windows ----

  function Register(s: State, w: Window): State {
    if w in s.infos then s else s.(infos := s.infos[w := WinInfo(None, "", None)])
  }

  function SetLink(infos: map<Window, WinInfo>, w: Window, entry: Option<nat>): map<Window, WinInfo> {
    if w in infos then infos[w := infos[w].(entry := entry)] else infos
  }

  function Forget(s: State, w: Window): State {
    if w in s.infos then s.(infos := s.infos[w := s.infos[w].(entryInnerId := "")]) else s
  }

  /** Manager.attachWindow. */
  function AttachWindow(s: State, w: Window, exported: bool): State
    requires w in s.infos
  {
    var info := s.infos[w];
    var i := FindInner(s.entries, info.entryInnerId);
    if i >= 0 then
      s.(entries := s.entries[i := Attach(s.entries[i], w, ActiveWin(s))],
         infos := SetLink(s.infos, w, Some(s.entries[i].id)))
    else
      var e := Attach(NewEntry(s.count, info.entryInnerId, info.app), w, ActiveWin(s));
      var t := s.(count := s.count + 1, infos := SetLink(s.infos, w, Some(e.id)));
      if exported then Append(t, e, -1) else t
  }

  /** Manager.detachWindow. */
  ghost function DetachWindow(s: State, w: Window, pick: Window): State {
    var i := FindWindow(s.entries, w);
    if i < 0 then s
    else
      var e := Detach(s.entries[i], w, pick, ActiveWin(s));
      var t := s.(entries := s.entries[i := e], infos := SetLink(s.infos, w, None));
      if Removable(e) then RemoveEntry(t, e.id) else t
  }

  function Identify(s: State, w: Window, look: Look): State
    requires w in s.infos
  {
    if s.infos[w].entryInnerId != "" then s
    else s.(infos := s.infos[w := s.infos[w].(entryInnerId := look.innerId, app := look.app)])
  }

  /** attachOrDetachWindow; the window is registered, so showing depends on the client list and the look. */
  ghost function AttachOrDetach(s: State, w: Window, look: Look): State
    requires w in s.infos
  {
    if s.infos[w].entry.Some? then
      if w in s.clients && look.show then s else DetachWindow(s, w, look.pick)
    else
      var t := Identify(s, w, look);
      if w in s.clients && look.showAgain then AttachWindow(t, w, look.exported) else t
  }

  /** The closures pushed by handleClientListChanged. */
  ghost function RunTask(s: State, task: Task, look: Look): State {
    match task
    case AddWin(w) =>
      var t := Register(s, w);
      if look.reached then AttachOrDetach(t, w, look) else t
    case RemoveWin(w) =>
      if w in s.infos then Forget(DetachWindow(s, w, look.pick), w)
      else
        var i := FindWindow(s.entries, w);
        if i >= 0 && !s.entries[i].docked then RemoveEntry(s, s.entries[i].id) else s
  }

  function Tasks(add: seq<Window>, remove: seq<Window>): seq<Task> {
    seq(|add|, i requires 0 <= i < |add| => AddWin(add[i])) +
    seq(|remove|, i requires 0 <= i < |remove| => RemoveWin(remove[i]))
  }

  function ActivateAll(entries: seq<Entry>, w: Window): seq<Entry> {
    seq(|entries|, i requires 0 <= i < |entries| => Activate(entries[i], w))
  }

  // ---- docking ----

  type Dirs = seq<(string, string)>

  /** The files of FilterDocked, in list order. */
  function DockedFiles(entries: seq<Entry>): seq<string> {
    if entries == [] then []
    else
      (if entries[0].app.Some? && entries[0].docked then [entries[0].app.value.file] else [])
      + DockedFiles(entries[1..])
  }

  /** saveDockedApps: their zipped names. */
  function Saved(dirs: Dirs, entries: seq<Entry>): seq<string> {
    var files := DockedFiles(entries);
    seq(|files|, i requires 0 <= i < |files| => DesktopPath.Zip(dirs, files[i]))
  }

  function Save(dirs: Dirs, s: State): State {
    s.(saved := Saved(dirs, s.entries))
  }

  predicate NeedScratch(app: Option<AppInfo>) {
    app.None? || (!app.value.installed && !app.value.scratch)
  }

  /** dockEntry: the entry afterwards, whether it was docked, and whether that failed. A scratch file that
      could not be written is None. */
  function Dock(e: Entry, scratch: Option<AppInfo>): (Entry, bool, bool) {
    if e.docked then (e, false, false)
    else if NeedScratch(e.app) then
      if scratch.None? then (e, false, true)
      else (e.(app := scratch, innerId := scratch.value.innerId, docked := true), true, false)
    else (e.(docked := true), true, false)
  }

  /** An entry that is undocked but has windows; one with a scratch file gets a new identity. */
  function Released(e: Entry, innerId: string, app: Option<AppInfo>): Entry
    requires e.app.Some?
  {
    var e' := if e.app.value.scratch && e.current.Some?
              then e.(innerId := innerId, app := if e.app.value.hashed then None else app)
              else e;
    e'.(docked := false)
  }

  /** undockEntry; (innerId, app) is how the current window is identified if that becomes necessary. */
  function Undock(dirs: Dirs, s: State, i: nat, innerId: string, app: Option<AppInfo>): State
    requires i < |s.entries|
  {
    var e := s.entries[i];
    if !e.docked || e.app.None? then s
    else if e.windows == {} then Save(dirs, RemoveEntry(s, e.id))
    else
      Save(dirs, s.(entries := s.entries[i := Released(e, innerId, app)]))
  }

  /** getByDesktopFilePath: by file name first, then by hash. */
  function FindFile(entries: seq<Entry>, dockedOnly: bool, file: string): (i: int)
    ensures -1 <= i < |entries|
    ensures i >= 0 ==> (dockedOnly ==> entries[i].docked) && entries[i].app.Some? && entries[i].app.value.file == file
    ensures forall k :: 0 <= k < (if i < 0 then |entries| else i) ==>
              (dockedOnly && !entries[k].docked) || entries[k].app == None || entries[k].app.value.file != file
  {
    if entries == [] then -1
    else if entries[0].app.Some? && (dockedOnly ==> entries[0].docked) && entries[0].app.value.file == file then 0
    else
      var i := FindFile(entries[1..], dockedOnly, file);
      if i < 0 then -1 else i + 1
  }

  function FindHash(entries: seq<Entry>, dockedOnly: bool, hash: string): (i: int)
    ensures -1 <= i < |entries|
    ensures i >= 0 ==>
              (dockedOnly ==> entries[i].docked) && entries[i].app.Some? && entries[i].app.value.innerId == hash
    ensures forall k :: 0 <= k < (if i < 0 then |entries| else i) ==>
              (dockedOnly && !entries[k].docked) || entries[k].app == None || entries[k].app.value.innerId != hash
  {
    if entries == [] then -1
    else if entries[0].app.Some? && (dockedOnly ==> entries[0].docked) && entries[0].app.value.innerId == hash then 0
    else
      var i := FindHash(entries[1..], dockedOnly, hash);
      if i < 0 then -1 else i + 1
  }

  function FindByPath(entries: seq<Entry>, dockedOnly: bool, file: string, hash: Option<string>): (i: int)
    ensures -1 <= i < |entries|
  {
    var i := FindFile(entries, dockedOnly, file);
    if i >= 0 then i
    else if hash.None? then -1
    else FindHash(entries, dockedOnly, hash.value)
  }

  function Request(dirs: Dirs, s: State, app: AppInfo, index: int, scratch: Option<AppInfo>, exported: bool): State {
    var i := FindInner(s.entries, app.innerId);
    if i >= 0 then
      var (e, docked, failed) := Dock(s.entries[i], scratch);
      if docked then Save(dirs, s.(entries := s.entries[i := e])) else s
    else
      var (e, docked, failed) := Dock(NewEntry(s.count, app.innerId, Some(app)), scratch);
      var t := s.(count := s.count + 1);
      if failed || !exported then t else Save(dirs, Append(t, e, index))
  }

  function Update(s: State, file: string, app: AppInfo): State {
    var i := FindByPath(s.entries, false, file, Some(app.innerId));
    if i < 0 then s
    else s.(entries := s.entries[i := s.entries[i].(app := Some(app), innerId := app.innerId)])
  }

  // ---- steps and runs ----

  ghost function ChangeClients(s: State, list: seq<Window>): State {
    var (add, remove) := Diff(s.clients, list);
    s.(clients := list, queue := s.queue + Tasks(add, remove))
  }

  ghost function PopTask(s: State, look: Look): State {
    if s.queue == [] then s else RunTask(s.(queue := s.queue[1..]), s.queue[0], look)
  }

  ghost function ChangeProperty(s: State, w: Window, idChanged: bool, need: bool, look: Look): State {
    if w !in s.infos then s
    else
      var t := if idChanged then Forget(DetachWindow(s, w, look.pick), w) else s;
      if (idChanged || need) && w in t.infos then AttachOrDetach(t, w, look) else t
  }

  ghost function DestroyWindow(s: State, w: Window, pick: Window): State {
    var t := if w in s.infos then DetachWindow(s, w, pick) else s;
    t.(infos := t.infos - {w})
  }

  function ChangeActive(s: State, w: Window): State {
    if w in s.infos then s.(active := Some(w), entries := ActivateAll(s.entries, w))
    else s.(active := None, previous := s.active)
  }

  function UndockFile(
    dirs: Dirs, s: State, file: string, hash: Option<string>, innerId: string, app: Option<AppInfo>): State
  {
    var i := FindByPath(s.entries, true, file, hash);
    if i < 0 then s else Undock(dirs, s, i, innerId, app)
  }

  function MoveTo(dirs: Dirs, s: State, i: int, j: int): State {
    if i != j && 0 <= i < |s.entries| && 0 <= j < |s.entries|
    then Save(dirs, s.(entries := Moved(s.entries, i, j))) else s
  }

  ghost function Step(dirs: Dirs, s: State, e: Event): State {
    match e
    case ClientList(list) => ChangeClients(s, list)
    case Pop(look) => PopTask(s, look)
    case Property(w, idChanged, need, look) => ChangeProperty(s, w, idChanged, need, look)
    case Destroy(w, pick) => DestroyWindow(s, w, pick)
    case Map(w) => Register(s, w)
    case ActiveWindow(w) => ChangeActive(s, w)
    case DockEntry(id, scratch) =>
      var i := IndexOf(s.entries, id);
      if i < 0 then s
      else
        var (e, docked, failed) := Dock(s.entries[i], scratch);
        if docked then Save(dirs, s.(entries := s.entries[i := e])) else s
    case UndockEntry(id, innerId, app) =>
      var i := IndexOf(s.entries, id);
      if i < 0 then s else Undock(dirs, s, i, innerId, app)
    case RequestDock(wanted, index, scratch, exported) =>
      if wanted.None? then s else Request(dirs, s, wanted.value, index, scratch, exported)
    case RequestUndock(file, hash, innerId, app) => UndockFile(dirs, s, file, hash, innerId, app)
    case MoveEntry(i, j) => MoveTo(dirs, s, i, j)
    case LauncherUpdated(file, parsed) =>
      if parsed.None? then s else Update(s, file, parsed.value)
  }

  ghost function Run(dirs: Dirs, s: State, events: seq<Event>): State
    decreases |events|
  {
    if events == [] then s else Run(dirs, Step(dirs, s, events[0]), events[1..])
  }

  // ---- start-up ----

  /** initDockedApps: one docked entry per stored application, without signals. */
  function Docked(apps: seq<AppInfo>, first: nat): seq<Entry>
    decreases |apps|
  {
    if apps == [] then []
    else [NewEntry(first, apps[0].innerId, Some(apps[0])).(docked := true)] + Docked(apps[1..], first + 1)
  }

  /** initClientList. */
  ghost function AttachAll(s: State, list: seq<Window>, looks: seq<Look>): State
    requires |looks| == |list|
    decreases |list|
  {
    if list == [] then s
    else AttachAll(AttachOrDetach(Register(s, list[0]), list[0], looks[0]), list[1..], looks[1..])
  }

  ghost function BeforeWindows(dirs: Dirs, apps: seq<AppInfo>, list: seq<Window>): State {
    var entries := Docked(apps, 0);
    State(list, map[], entries, None, None, [], |apps|, Saved(dirs, entries), [])
  }

  ghost function Start(dirs: Dirs, apps: seq<AppInfo>, list: seq<Window>, looks: seq<Look>): State
    requires |looks| == |list|
  {
    AttachAll(BeforeWindows(dirs, apps, list), list, looks)
  }
}
