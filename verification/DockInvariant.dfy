/** What every reachable state of the dock keeps: windows, entries, back-pointers, the current window, the
    active flag and the exported window ids always agree. */
module DockInvariant {
  import opened Collections
  import opened WindowSlice
  import opened DockEntries
  import opened DockModel

  ghost predicate EntryOk(e: Entry) {
    && (e.docked || e.windows != {})
    && (e.current == None <==> e.windows == {})
    && (e.current.Some? ==> e.current.value in e.windows)
    && e.infos == e.windows
    && (e.docked ==> e.app.Some?)
  }

  /** With an active window exactly its entry is flagged; without one, at most one entry still is. */
  ghost predicate ActiveOk(entries: seq<Entry>, active: Option<Window>) {
    match active
    case Some(w) => forall i :: 0 <= i < |entries| ==> (entries[i].active <==> w in entries[i].windows)
    case None => forall i, j :: 0 <= i < j < |entries| ==> !(entries[i].active && entries[j].active)
  }

  ghost predicate Disjoint(entries: seq<Entry>) {
    forall i, j :: 0 <= i < j < |entries| ==> entries[i].windows !! entries[j].windows
  }

  ghost predicate ListOk(entries: seq<Entry>, count: nat, active: Option<Window>) {
    && DistinctIds(entries)
    && (forall i :: 0 <= i < |entries| ==> entries[i].id < count)
    && Disjoint(entries)
    && (forall i :: 0 <= i < |entries| ==> EntryOk(entries[i]))
    && ActiveOk(entries, active)
  }

  /** The entry a window's back-pointer should name. */
  ghost function LinkOf(entries: seq<Entry>, w: Window): Option<nat> {
    var i := FindWindow(entries, w);
    if i < 0 then None else Some(entries[i].id)
  }

  /** An attached window is registered and its back-pointer names its entry. */
  ghost predicate LinksOk(entries: seq<Entry>, infos: map<Window, WinInfo>) {
    && (forall i, w :: 0 <= i < |entries| && w in entries[i].windows ==> w in infos)
    && (forall w :: w in infos && FindWindow(entries, w) >= 0 ==> infos[w].entry == LinkOf(entries, w))
  }

  /** What holds whether or not new entries can be exported. */
  ghost predicate Core(s: State) {
    ListOk(s.entries, s.count, ActiveWin(s)) && LinksOk(s.entries, s.infos)
  }

  ghost predicate Attached(s: State, w: Window) {
    FindWindow(s.entries, w) >= 0
  }

  /** A window left with a back-pointer to an entry that could not be exported and is not listed. */
  ghost predicate Stray(s: State, w: Window) {
    w in s.infos && s.infos[w].entry.Some? && !Attached(s, w)
  }

  ghost predicate Inv(s: State) {
    Core(s) && forall w :: !Stray(s, w)
  }

  /** The core is kept and no window has become a stray. */
  ghost predicate Keeps(s: State, t: State) {
    Core(t) && forall w :: Stray(t, w) ==> Stray(s, w)
  }

  /** Everything a step about window w leaves alone. */
  ghost predicate OnlyAbout(s: State, t: State, w: Window) {
    && t.clients == s.clients && t.queue == s.queue && t.active == s.active && t.previous == s.previous
    && (forall x :: x != w ==> (Attached(t, x) <==> Attached(s, x)) && (Stray(t, x) <==> Stray(s, x)))
  }

  // ---- list edits ----

  lemma LinkIs(entries: seq<Entry>, i: nat, w: Window)
    requires Disjoint(entries) && i < |entries| && w in entries[i].windows
    ensures FindWindow(entries, w) == i && LinkOf(entries, w) == Some(entries[i].id)
  {
    OnlyIn(entries, i, w);
  }

  lemma OnlyIn(entries: seq<Entry>, i: nat, w: Window)
    requires Disjoint(entries) && i < |entries| && w in entries[i].windows
    ensures forall k :: 0 <= k < |entries| && k != i ==> w !in entries[k].windows
  {
    forall k | 0 <= k < |entries| && k != i ensures w !in entries[k].windows {
      assert entries[if k < i then k else i].windows !! entries[if k < i then i else k].windows;
    }
  }

  lemma NotFound(entries: seq<Entry>, w: Window)
    ensures FindWindow(entries, w) < 0 <==> forall i :: 0 <= i < |entries| ==> w !in entries[i].windows
  {
  }

  lemma IndexIs(entries: seq<Entry>, i: nat)
    requires DistinctIds(entries) && i < |entries|
    ensures IndexOf(entries, entries[i].id) == i
  {
  }

  lemma ReplaceOk(entries: seq<Entry>, count: nat, active: Option<Window>, i: nat, e: Entry)
    requires ListOk(entries, count, active) && i < |entries|
    requires e.id == entries[i].id && EntryOk(e)
    requires forall k :: 0 <= k < |entries| && k != i ==> e.windows !! entries[k].windows
    requires if active.Some? then (e.active <==> active.value in e.windows) else (e.active ==> entries[i].active)
    ensures ListOk(entries[i := e], count, active)
  {
  }

  lemma RemoveOk(entries: seq<Entry>, count: nat, active: Option<Window>, i: nat)
    requires ListOk(entries, count, active) && i < |entries|
    ensures ListOk(RemoveAt(entries, i), count, active)
  {
    var r := RemoveAt(entries, i);
    assert forall k :: 0 <= k < |r| ==> r[k] == entries[if k < i then k else k + 1];
  }

  lemma InsertOk(entries: seq<Entry>, count: nat, active: Option<Window>, i: nat, e: Entry)
    requires ListOk(entries, count, active) && i <= |entries|
    requires e.id == count && EntryOk(e) && e.active == IsActive(active, e.windows)
    requires forall k :: 0 <= k < |entries| ==> e.windows !! entries[k].windows
    ensures ListOk(InsertAt(entries, e, i), count + 1, active)
  {
    var r := InsertAt(entries, e, i);
    forall k | 0 <= k < |r| ensures r[k] == if k < i then entries[k] else if k == i then e else entries[k - 1] {
    }
    forall k, l | 0 <= k < l < |r|
      ensures r[k].id != r[l].id && r[k].windows !! r[l].windows
      ensures active == None ==> !(r[k].active && r[l].active)
    {
    }
    forall k | 0 <= k < |r|
      ensures r[k].id < count + 1 && EntryOk(r[k])
      ensures active.Some? ==> (r[k].active <==> active.value in r[k].windows)
    {
    }
  }

  lemma FindAfterReplace(entries: seq<Entry>, i: nat, e: Entry, x: Window)
    requires i < |entries|
    requires forall k :: 0 <= k < |entries| && k != i ==> e.windows !! entries[k].windows
    requires Disjoint(entries)
    ensures var r := entries[i := e];
            if x in e.windows then FindWindow(r, x) == i
            else if x in entries[i].windows then FindWindow(r, x) < 0
            else FindWindow(r, x) == FindWindow(entries, x)
  {
    var r := entries[i := e];
    assert forall k :: 0 <= k < |r| && k != i ==> r[k] == entries[k];
    assert r[i] == e;
    if x in e.windows {
      assert forall k :: 0 <= k < |r| && k != i ==> x !in r[k].windows;
    } else if x in entries[i].windows {
      OnlyIn(entries, i, x);
    } else {
      assert forall k :: 0 <= k < |r| ==> (x in r[k].windows <==> x in entries[k].windows);
      SamePlaces(entries, r, x);
    }
  }

  lemma SamePlaces(a: seq<Entry>, b: seq<Entry>, x: Window)
    requires |a| == |b| && forall k :: 0 <= k < |a| ==> (x in b[k].windows <==> x in a[k].windows)
    ensures FindWindow(a, x) == FindWindow(b, x)
  {
    var i, j := FindWindow(a, x), FindWindow(b, x);
    assert i >= 0 ==> x in b[i].windows;
    assert j >= 0 ==> x in a[j].windows;
  }

  lemma FindAfterRemove(entries: seq<Entry>, i: nat, x: Window)
    requires i < |entries| && x !in entries[i].windows
    ensures var r, k := RemoveAt(entries, i), FindWindow(entries, x);
            && (FindWindow(r, x) >= 0 <==> k >= 0)
            && LinkOf(r, x) == LinkOf(entries, x)
  {
    var r, k := RemoveAt(entries, i), FindWindow(entries, x);
    assert forall m :: 0 <= m < |r| ==> r[m] == entries[if m < i then m else m + 1];
    if k >= 0 {
      var m := if k < i then k else k - 1;
      assert r[m] == entries[k];
    }
  }

  lemma FindAfterInsert(entries: seq<Entry>, i: nat, e: Entry, x: Window)
    requires i <= |entries|
    requires forall k :: 0 <= k < |entries| ==> e.windows !! entries[k].windows
    ensures LinkOf(InsertAt(entries, e, i), x) == if x in e.windows then Some(e.id) else LinkOf(entries, x)
    ensures FindWindow(InsertAt(entries, e, i), x) >= 0 <==> x in e.windows || FindWindow(entries, x) >= 0
  {
    var r, k := InsertAt(entries, e, i), FindWindow(entries, x);
    assert forall m :: 0 <= m < |r| ==> r[m] == if m < i then entries[m] else if m == i then e else entries[m - 1];
    if x in e.windows {
      assert r[i] == e;
    } else if k >= 0 {
      assert r[if k < i then k else k + 1] == entries[k];
    }
  }

  // ---- windows ----

  /** There is an entry to attach the window to, or a new one can be listed. */
  ghost predicate HasPlace(s: State, w: Window, exported: bool)
    requires w in s.infos
  {
    exported || FindInner(s.entries, s.infos[w].entryInnerId) >= 0
  }

  /** Attaching a window makes it attached or, if its new entry cannot be exported, a stray. */
  lemma AttachWindowKeeps(s: State, w: Window, exported: bool)
    requires Core(s) && w in s.infos && s.infos[w].entry == None
    ensures var t := AttachWindow(s, w, exported);
            && Core(t) && OnlyAbout(s, t, w) && t.infos.Keys == s.infos.Keys
            && (Attached(t, w) <==> HasPlace(s, w, exported)) && (Stray(t, w) <==> !HasPlace(s, w, exported))
  {
    var t := AttachWindow(s, w, exported);
    assert FindWindow(s.entries, w) < 0;
    var i := FindInner(s.entries, s.infos[w].entryInnerId);
    if i >= 0 {
      GrowOk(s.entries, s.count, ActiveWin(s), i, w);
      LinksAfterAttach(s, t, w, s.entries[i].id);
    } else if exported {
      var e := Attach(NewEntry(s.count, s.infos[w].entryInnerId, s.infos[w].app), w, ActiveWin(s));
      assert e.windows == {w};
      InsertOk(s.entries, s.count, ActiveWin(s), |s.entries|, e);
      forall x ensures LinkOf(t.entries, x) == if x == w then Some(e.id) else LinkOf(s.entries, x) {
        FindAfterInsert(s.entries, |s.entries|, e, x);
      }
      LinksAfterAttach(s, t, w, e.id);
    }
  }

  /** Attaching an unattached window to a listed entry. */
  lemma GrowOk(entries: seq<Entry>, count: nat, active: Option<Window>, i: nat, w: Window)
    requires ListOk(entries, count, active) && i < |entries| && FindWindow(entries, w) < 0
    ensures var r := entries[i := Attach(entries[i], w, active)];
            && ListOk(r, count, active)
            && forall x :: LinkOf(r, x) == if x == w then Some(entries[i].id) else LinkOf(entries, x)
  {
    var e := Attach(entries[i], w, active);
    ReplaceOk(entries, count, active, i, e);
    var r := entries[i := e];
    forall x ensures LinkOf(r, x) == if x == w then Some(e.id) else LinkOf(entries, x) {
      FindAfterReplace(entries, i, e, x);
      if x in entries[i].windows {
        LinkIs(entries, i, x);
      }
    }
  }

  lemma LinksAfterAttach(s: State, t: State, w: Window, id: nat)
    requires LinksOk(s.entries, s.infos) && w in s.infos
    requires t.infos == SetLink(s.infos, w, Some(id))
    requires forall x :: LinkOf(t.entries, x) == if x == w then Some(id) else LinkOf(s.entries, x)
    ensures LinksOk(t.entries, t.infos) && Attached(t, w)
    ensures forall x :: x != w ==> (Attached(t, x) <==> Attached(s, x)) && (Stray(t, x) <==> Stray(s, x))
  {
    assert LinkOf(t.entries, w) == Some(id);
    forall x | x != w ensures Attached(t, x) <==> Attached(s, x) {
      assert LinkOf(t.entries, x) == LinkOf(s.entries, x);
    }
    forall i, x | 0 <= i < |t.entries| && x in t.entries[i].windows ensures x in t.infos {
      if x != w {
        assert FindWindow(t.entries, x) >= 0;
        assert Attached(t, x);
        assert x in s.entries[FindWindow(s.entries, x)].windows;
      }
    }
  }

  lemma DetachWindowKeeps(s: State, w: Window, pick: Window)
    requires Core(s)
    ensures var t := DetachWindow(s, w, pick);
            Keeps(s, t) && !Attached(t, w) && OnlyAbout(s, t, w) && t.infos.Keys == s.infos.Keys
  {
    var t := DetachWindow(s, w, pick);
    var i := FindWindow(s.entries, w);
    if i >= 0 {
      var e := Detach(s.entries[i], w, pick, ActiveWin(s));
      if Removable(e) {
        VanishOk(s.entries, s.count, ActiveWin(s), i, w, e);
      } else {
        ShrinkOk(s.entries, s.count, ActiveWin(s), i, w, pick);
      }
      LinksAfterDetach(s, t, w);
    }
  }

  /** Removing the entry that a detached window leaves with nothing. */
  lemma VanishOk(entries: seq<Entry>, count: nat, active: Option<Window>, i: nat, w: Window, e: Entry)
    requires ListOk(entries, count, active) && i < |entries| && entries[i].windows == {w}
    requires e.id == entries[i].id
    ensures IndexOf(entries[i := e], e.id) == i
    ensures var r := RemoveAt(entries[i := e], i);
            && ListOk(r, count, active)
            && forall x :: LinkOf(r, x) == if x == w then None else LinkOf(entries, x)
  {
    IndexIs(entries[i := e], i);
    assert RemoveAt(entries[i := e], i) == RemoveAt(entries, i);
    RemoveOk(entries, count, active, i);
    OnlyIn(entries, i, w);
    var r := RemoveAt(entries, i);
    forall x ensures LinkOf(r, x) == if x == w then None else LinkOf(entries, x) {
      if x == w {
        NotFound(r, w);
      } else {
        FindAfterRemove(entries, i, x);
      }
    }
  }

  /** Taking a window out of an entry that stays. */
  lemma ShrinkOk(entries: seq<Entry>, count: nat, active: Option<Window>, i: nat, w: Window, pick: Window)
    requires ListOk(entries, count, active) && i < |entries| && w in entries[i].windows
    requires !Removable(Detach(entries[i], w, pick, active))
    ensures var r := entries[i := Detach(entries[i], w, pick, active)];
            && ListOk(r, count, active)
            && forall x :: LinkOf(r, x) == if x == w then None else LinkOf(entries, x)
  {
    var e := Detach(entries[i], w, pick, active);
    forall k | 0 <= k < |entries| && k != i ensures e.windows !! entries[k].windows {
      assert entries[if k < i then k else i].windows !! entries[if k < i then i else k].windows;
    }
    ReplaceOk(entries, count, active, i, e);
    var r := entries[i := e];
    forall x ensures LinkOf(r, x) == if x == w then None else LinkOf(entries, x) {
      FindAfterReplace(entries, i, e, x);
      if x in entries[i].windows {
        LinkIs(entries, i, x);
      }
    }
  }

  lemma LinksAfterDetach(s: State, t: State, w: Window)
    requires LinksOk(s.entries, s.infos)
    requires t.infos == SetLink(s.infos, w, None)
    requires forall x :: LinkOf(t.entries, x) == if x == w then None else LinkOf(s.entries, x)
    ensures LinksOk(t.entries, t.infos) && !Attached(t, w) && !Stray(t, w)
    ensures forall x :: x != w ==> (Attached(t, x) <==> Attached(s, x)) && (Stray(t, x) <==> Stray(s, x))
  {
    assert LinkOf(t.entries, w) == None;
    forall x | x != w ensures Attached(t, x) <==> Attached(s, x) {
      assert LinkOf(t.entries, x) == LinkOf(s.entries, x);
    }
    forall i, x | 0 <= i < |t.entries| && x in t.entries[i].windows ensures x in t.infos {
      assert FindWindow(t.entries, x) >= 0;
      assert x != w && Attached(s, x);
      assert x in s.entries[FindWindow(s.entries, x)].windows;
    }
  }

  lemma IdentifyKeeps(s: State, w: Window, look: Look)
    requires Core(s) && w in s.infos
    ensures var t := Identify(s, w, look);
            Keeps(s, t) && t.entries == s.entries && OnlyAbout(s, t, w) && t.infos.Keys == s.infos.Keys
            && t.infos[w].entry == s.infos[w].entry
  {
  }

  lemma ForgetKeeps(s: State, w: Window)
    requires Core(s)
    ensures var t := Forget(s, w);
            Keeps(s, t) && t.entries == s.entries && OnlyAbout(s, t, w) && t.infos.Keys == s.infos.Keys
  {
  }

  lemma RegisterKeeps(s: State, w: Window)
    requires Core(s)
    ensures var t := Register(s, w);
            Keeps(s, t) && t.entries == s.entries && OnlyAbout(s, t, w) && w in t.infos
  {
    if w !in s.infos {
      NotFound(s.entries, w);
    }
  }

  /** attachOrDetachWindow, exactly: a stray stays one; any other window ends up attached if it is listed, to
      be shown, and has a place, and becomes a stray if only the place is missing. */
  lemma AttachOrDetachKeeps(s: State, w: Window, look: Look)
    requires Core(s) && w in s.infos
    ensures var t := AttachOrDetach(s, w, look);
            && Core(t) && OnlyAbout(s, t, w) && t.infos.Keys == s.infos.Keys
            && if Stray(s, w) then Stray(t, w)
               else if Attached(s, w) then !Stray(t, w) && (Attached(t, w) <==> w in s.clients && look.show)
               else
                 var place := HasPlace(Identify(s, w, look), w, look.exported);
                 && (Attached(t, w) <==> w in s.clients && look.showAgain && place)
                 && (Stray(t, w) <==> w in s.clients && look.showAgain && !place)
  {
    if s.infos[w].entry.Some? {
      DetachWindowKeeps(s, w, look.pick);
    } else {
      IdentifyKeeps(s, w, look);
      if w in s.clients && look.showAgain {
        AttachWindowKeeps(Identify(s, w, look), w, look.exported);
      }
    }
  }

  ghost predicate Shows(look: Look) {
    look.show && look.showAgain && look.exported
  }

  /** A queued closure: a window that can be shown ends up on the dock exactly when it is listed. */
  lemma TaskKeeps(s: State, task: Task, look: Look)
    requires Core(s)
    ensures var t, w := RunTask(s, task, look), task.win;
            && Core(t) && OnlyAbout(s, t, w)
            && (look.exported || task.RemoveWin? ==> Keeps(s, t))
            && (task.AddWin? && look.reached && Shows(look) && !Stray(s, w) ==> (Attached(t, w) <==> w in s.clients))
            && (task.RemoveWin? ==> !Attached(t, w))
            && (Stray(s, w) ==> Stray(t, w))
  {
    var w := task.win;
    if task.AddWin? {
      RegisterKeeps(s, w);
      if look.reached {
        AttachOrDetachKeeps(Register(s, w), w, look);
      }
    } else if w in s.infos {
      DetachWindowKeeps(s, w, look.pick);
      ForgetKeeps(DetachWindow(s, w, look.pick), w);
    } else {
      NotFound(s.entries, w);
    }
  }

  /** An unregistered window is in no entry, so the removal fallback never finds one. */
  lemma FallbackFindsNothing(s: State, w: Window)
    requires Core(s) && w !in s.infos
    ensures FindWindow(s.entries, w) < 0
  {
    NotFound(s.entries, w);
  }

  // ---- the other steps ----

  lemma PropertyKeeps(s: State, w: Window, idChanged: bool, need: bool, look: Look)
    requires Core(s) && w in s.infos
    ensures var t := ChangeProperty(s, w, idChanged, need, look);
            && Core(t) && OnlyAbout(s, t, w)
            && (look.exported ==> Keeps(s, t))
            && ((idChanged || need) && Shows(look) && !Stray(s, w) ==> (Attached(t, w) <==> w in s.clients))
            && (!idChanged && !need ==> t == s)
            && (Stray(s, w) ==> Stray(t, w))
  {
    var t := s;
    if idChanged {
      DetachWindowKeeps(s, w, look.pick);
      ForgetKeeps(DetachWindow(s, w, look.pick), w);
      t := Forget(DetachWindow(s, w, look.pick), w);
    }
    if idChanged || need {
      AttachOrDetachKeeps(t, w, look);
    }
  }

  lemma DestroyKeeps(s: State, w: Window, pick: Window)
    requires Core(s)
    ensures var t := DestroyWindow(s, w, pick); Keeps(s, t) && OnlyAbout(s, t, w) && !Attached(t, w)
  {
    if w in s.infos {
      DetachWindowKeeps(s, w, pick);
      NotFound(DetachWindow(s, w, pick).entries, w);
    } else {
      NotFound(s.entries, w);
    }
  }

  lemma ActivateKeeps(s: State, w: Window)
    requires Core(s)
    ensures Keeps(s, s.(active := Some(w), entries := ActivateAll(s.entries, w)))
    ensures forall x :: FindWindow(ActivateAll(s.entries, w), x) == FindWindow(s.entries, x)
    ensures forall k :: 0 <= k < |s.entries| ==>
              var e := ActivateAll(s.entries, w)[k];
              if w in s.entries[k].windows then e.active && e.current == Some(w)
              else !e.active && e.current == s.entries[k].current
  {
    var r := ActivateAll(s.entries, w);
    ActivatedOk(s.entries, s.count, ActiveWin(s), w);
    forall x ensures FindWindow(r, x) == FindWindow(s.entries, x) {
      SamePlaces(s.entries, r, x);
    }
  }

  lemma ActivatedOk(entries: seq<Entry>, count: nat, active: Option<Window>, w: Window)
    requires ListOk(entries, count, active)
    ensures ListOk(ActivateAll(entries, w), count, Some(w))
  {
    var r := ActivateAll(entries, w);
    forall k | 0 <= k < |r|
      ensures r[k].id == entries[k].id && r[k].windows == entries[k].windows && EntryOk(r[k])
      ensures r[k].active <==> w in r[k].windows
    {
      assert EntryOk(entries[k]);
    }
    forall k, l | 0 <= k < l < |r| ensures r[k].windows !! r[l].windows {
      assert entries[k].windows !! entries[l].windows;
    }
  }

  /** Losing the active window once leaves what getActiveWindow returns alone; losing it again clears that,
      and the flags, which nobody rewrites then, are those of at most one entry. */
  lemma DeactivateKeeps(s: State)
    requires Core(s)
    ensures var t := s.(active := None, previous := s.active);
            Keeps(s, t) && ActiveWin(t) == s.active
  {
    if s.active == None && s.previous.Some? {
      forall i, j | 0 <= i < j < |s.entries| ensures !(s.entries[i].active && s.entries[j].active) {
        assert s.entries[i].windows !! s.entries[j].windows;
      }
    }
  }

  /** Rewriting an entry without touching its id, windows or flags about them. */
  lemma RestyleKeeps(s: State, i: nat, e: Entry)
    requires Core(s) && i < |s.entries| && EntryOk(e)
    requires e.id == s.entries[i].id && e.windows == s.entries[i].windows && e.active == s.entries[i].active
    ensures Keeps(s, s.(entries := s.entries[i := e]))
    ensures forall x :: FindWindow(s.entries[i := e], x) == FindWindow(s.entries, x)
  {
    forall k | 0 <= k < |s.entries| && k != i ensures e.windows !! s.entries[k].windows {
      assert s.entries[if k < i then k else i].windows !! s.entries[if k < i then i else k].windows;
    }
    ReplaceOk(s.entries, s.count, ActiveWin(s), i, e);
    var r := s.entries[i := e];
    forall x ensures FindWindow(r, x) == FindWindow(s.entries, x) {
      SamePlaces(s.entries, r, x);
    }
  }

  lemma RemoveEntryKeeps(s: State, i: nat)
    requires Core(s) && i < |s.entries| && s.entries[i].windows == {}
    ensures var t := RemoveEntry(s, s.entries[i].id);
            Keeps(s, t) && t.entries == RemoveAt(s.entries, i) && forall x :: Attached(t, x) <==> Attached(s, x)
  {
    IndexIs(s.entries, i);
    RemoveOk(s.entries, s.count, ActiveWin(s), i);
    var t := RemoveEntry(s, s.entries[i].id);
    forall x ensures (Attached(t, x) <==> Attached(s, x)) && LinkOf(t.entries, x) == LinkOf(s.entries, x) {
      FindAfterRemove(s.entries, i, x);
    }
    forall k, x | 0 <= k < |t.entries| && x in t.entries[k].windows ensures x in t.infos {
      assert Attached(t, x);
      assert x in s.entries[FindWindow(s.entries, x)].windows;
    }
  }

  lemma InsertEntryKeeps(s: State, e: Entry, index: int)
    requires Core(s) && e.id == s.count && EntryOk(e) && e.windows == {} && !e.active
    ensures var t := Append(s.(count := s.count + 1), e, index);
            Keeps(s, t) && forall x :: Attached(t, x) <==> Attached(s, x)
  {
    var i := InsertIndex(|s.entries|, index);
    var t := Append(s.(count := s.count + 1), e, index);
    InsertOk(s.entries, s.count, ActiveWin(s), i, e);
    forall x ensures (Attached(t, x) <==> Attached(s, x)) && LinkOf(t.entries, x) == LinkOf(s.entries, x) {
      FindAfterInsert(s.entries, i, e, x);
    }
    forall k, x | 0 <= k < |t.entries| && x in t.entries[k].windows ensures x in t.infos {
      assert Attached(t, x);
      assert x in s.entries[FindWindow(s.entries, x)].windows;
    }
  }

  lemma UndockKeeps(dirs: Dirs, s: State, i: nat, innerId: string, app: Option<AppInfo>)
    requires Core(s) && i < |s.entries|
    ensures var t := Undock(dirs, s, i, innerId, app);
            Keeps(s, t) && t.infos == s.infos && forall x :: Attached(t, x) <==> Attached(s, x)
  {
    var e := s.entries[i];
    if e.docked && e.app.Some? {
      if e.windows == {} {
        RemoveEntryKeeps(s, i);
      } else {
        RestyleKeeps(s, i, Released(e, innerId, app));
      }
    }
  }

  lemma RequestKeeps(dirs: Dirs, s: State, app: AppInfo, index: int, scratch: Option<AppInfo>, exported: bool)
    requires Core(s)
    ensures var t := Request(dirs, s, app, index, scratch, exported);
            Keeps(s, t) && t.infos == s.infos && forall x :: Attached(t, x) <==> Attached(s, x)
  {
    var i := FindInner(s.entries, app.innerId);
    if i >= 0 {
      var (e, docked, failed) := Dock(s.entries[i], scratch);
      if docked {
        RestyleKeeps(s, i, e);
      }
    } else {
      var (e, docked, failed) := Dock(NewEntry(s.count, app.innerId, Some(app)), scratch);
      if !failed && exported {
        InsertEntryKeeps(s, e, index);
      }
    }
  }

  lemma MoveKeeps(s: State, i: nat, j: nat)
    requires Core(s) && i < |s.entries| && j < |s.entries|
    ensures var t := s.(entries := Moved(s.entries, i, j));
            Keeps(s, t) && forall x :: Attached(t, x) <==> Attached(s, x)
  {
    var r, m := RemoveAt(s.entries, i), Moved(s.entries, i, j);
    var t := s.(entries := m);
    var e := s.entries[i];
    MovedOk(s, i, j);
    forall k | 0 <= k < |r| ensures e.windows !! r[k].windows {
      var l := if k < i then k else k + 1;
      assert r[k] == s.entries[l];
      assert s.entries[if l < i then l else i].windows !! s.entries[if l < i then i else l].windows;
    }
    forall x ensures (Attached(t, x) <==> Attached(s, x)) && LinkOf(m, x) == LinkOf(s.entries, x) {
      FindAfterInsert(r, j, e, x);
      if x in e.windows {
        LinkIs(s.entries, i, x);
      } else {
        FindAfterRemove(s.entries, i, x);
      }
    }
    forall k, x | 0 <= k < |m| && x in m[k].windows ensures x in s.infos {
      assert Attached(t, x);
      assert x in s.entries[FindWindow(s.entries, x)].windows;
    }
  }

  lemma MovedOk(s: State, i: nat, j: nat)
    requires Core(s) && i < |s.entries| && j < |s.entries|
    ensures ListOk(Moved(s.entries, i, j), s.count, ActiveWin(s))
  {
    var m := Moved(s.entries, i, j);
    MovedAt(s.entries, i, j);
    forall k, l | 0 <= k < l < |m|
      ensures m[k].id != m[l].id && m[k].windows !! m[l].windows
      ensures ActiveWin(s) == None ==> !(m[k].active && m[l].active)
    {
      var a, b := Origin(i, j, k), Origin(i, j, l);
      assert m[k] == s.entries[a] && m[l] == s.entries[b];
      assert s.entries[if a < b then a else b].windows !! s.entries[if a < b then b else a].windows;
    }
  }

  lemma UpdateKeeps(s: State, file: string, app: AppInfo)
    requires Core(s)
    ensures var t := Update(s, file, app);
            Keeps(s, t) && t.infos == s.infos && forall x :: Attached(t, x) <==> Attached(s, x)
  {
    var i := FindByPath(s.entries, false, file, Some(app.innerId));
    if i >= 0 {
      RestyleKeeps(s, i, s.entries[i].(app := Some(app), innerId := app.innerId));
    }
  }

  // ---- runs ----

  /** New entries can be exported on the bus. */
  ghost predicate Exports(e: Event) {
    match e
    case Pop(look) => look.exported
    case Property(_, _, _, look) => look.exported
    case _ => true
  }

  /** The window an event may attach, and what it finds out about it. */
  ghost predicate Attaches(s: State, e: Event, w: Window) {
    match e
    case Pop(_) => s.queue != [] && s.queue[0] == AddWin(w)
    case Property(x, _, _, _) => x == w
    case _ => false
  }

  /** Every step keeps the core, whether or not exports succeed, and only a window whose own entry could not
      be exported becomes a stray. */
  lemma StepKeepsCore(dirs: Dirs, s: State, e: Event)
    requires Core(s)
    ensures Core(Step(dirs, s, e))
    ensures forall w :: Stray(Step(dirs, s, e), w) && !Stray(s, w) ==> Attaches(s, e, w) && !Exports(e)
  {
    match e {
      case ClientList(_) =>
      case Pop(look) =>
        if s.queue != [] {
          TaskKeeps(s.(queue := s.queue[1..]), s.queue[0], look);
        }
      case Property(w, idChanged, need, look) =>
        if w in s.infos {
          PropertyKeeps(s, w, idChanged, need, look);
        }
      case Destroy(w, pick) => DestroyKeeps(s, w, pick);
      case Map(w) => RegisterKeeps(s, w);
      case ActiveWindow(w) =>
        ActivateKeeps(s, w);
        DeactivateKeeps(s);
      case _ => DockingKeeps(dirs, s, e);
    }
  }

  /** A stray stays off the dock until its window is destroyed. */
  lemma StraysStay(dirs: Dirs, s: State, e: Event, w: Window)
    requires Core(s) && Stray(s, w) && !(e.Destroy? && e.win == w)
    ensures Stray(Step(dirs, s, e), w)
  {
    match e {
      case Pop(look) =>
        if s.queue != [] {
          TaskKeeps(s.(queue := s.queue[1..]), s.queue[0], look);
        }
      case Property(x, idChanged, need, look) =>
        if x in s.infos {
          PropertyKeeps(s, x, idChanged, need, look);
        }
      case Destroy(x, pick) => DestroyKeeps(s, x, pick);
      case Map(x) => RegisterKeeps(s, x);
      case ActiveWindow(x) => ActivateKeeps(s, x);
      case ClientList(_) =>
      case _ => DockingKeeps(dirs, s, e);
    }
  }

  /** So every run keeps it, in any order of events and queue pops. */
  lemma {:induction false} RunKeepsCore(dirs: Dirs, s: State, events: seq<Event>)
    requires Core(s)
    ensures Core(Run(dirs, s, events))
    decreases |events|
  {
    if events != [] {
      StepKeepsCore(dirs, s, events[0]);
      RunKeepsCore(dirs, Step(dirs, s, events[0]), events[1..]);
    }
  }

  lemma StepKeepsInv(dirs: Dirs, s: State, e: Event)
    requires Inv(s) && Exports(e)
    ensures Inv(Step(dirs, s, e))
  {
    StepKeepsCore(dirs, s, e);
  }

  /** Docking, moving and updating entries neither attaches nor registers a window. */
  lemma DockingKeeps(dirs: Dirs, s: State, e: Event)
    requires Core(s)
    requires !e.ClientList? && !e.Pop? && !e.Property? && !e.Destroy? && !e.Map? && !e.ActiveWindow?
    ensures var t := Step(dirs, s, e);
            Keeps(s, t) && t.infos == s.infos && forall x :: Attached(t, x) <==> Attached(s, x)
  {
    match e {
      case DockEntry(id, scratch) => DockEntryKeeps(dirs, s, id, scratch);
      case UndockEntry(id, innerId, app) =>
        if IndexOf(s.entries, id) >= 0 {
          UndockKeeps(dirs, s, IndexOf(s.entries, id), innerId, app);
        }
      case RequestDock(wanted, index, scratch, exported) =>
        if wanted.Some? {
          RequestKeeps(dirs, s, wanted.value, index, scratch, exported);
        }
      case RequestUndock(file, hash, innerId, app) =>
        if FindByPath(s.entries, true, file, hash) >= 0 {
          UndockKeeps(dirs, s, FindByPath(s.entries, true, file, hash), innerId, app);
        }
      case MoveEntry(i, j) => MoveToKeeps(dirs, s, i, j);
      case LauncherUpdated(file, parsed) =>
        if parsed.Some? {
          UpdateKeeps(s, file, parsed.value);
        }
    }
  }

  lemma DockEntryKeeps(dirs: Dirs, s: State, id: nat, scratch: Option<AppInfo>)
    requires Core(s)
    ensures var t := Step(dirs, s, DockEntry(id, scratch));
            Keeps(s, t) && t.infos == s.infos && forall x :: Attached(t, x) <==> Attached(s, x)
  {
    var i := IndexOf(s.entries, id);
    if i >= 0 {
      var (e, docked, failed) := Dock(s.entries[i], scratch);
      if docked {
        RestyleKeeps(s, i, e);
      }
    }
  }

  lemma MoveToKeeps(dirs: Dirs, s: State, i: int, j: int)
    requires Core(s)
    ensures var t := MoveTo(dirs, s, i, j);
            Keeps(s, t) && t.infos == s.infos && forall x :: Attached(t, x) <==> Attached(s, x)
  {
    if i != j && 0 <= i < |s.entries| && 0 <= j < |s.entries| {
      MoveKeeps(s, i, j);
    }
  }

  /** The entry table is consistent after every run, in any order of events and queue pops. */
  lemma {:induction false} RunKeepsInv(dirs: Dirs, s: State, events: seq<Event>)
    requires Inv(s)
    requires forall i :: 0 <= i < |events| ==> Exports(events[i])
    ensures Inv(Run(dirs, s, events))
    decreases |events|
  {
    if events != [] {
      StepKeepsInv(dirs, s, events[0]);
      RunKeepsInv(dirs, Step(dirs, s, events[0]), events[1..]);
    }
  }

  /** What a consistent table means; a stray is the only window whose back-pointer may be off. */
  lemma TableIsConsistent(s: State, i: nat, j: nat, w: Window)
    requires Core(s) && i < |s.entries| && j < |s.entries|
    ensures w in s.entries[i].windows && w in s.entries[j].windows ==> i == j
    ensures w in s.entries[i].windows ==> w in s.infos && s.infos[w].entry == Some(s.entries[i].id)
    ensures s.entries[i].active && s.entries[j].active ==> i == j
    ensures w in s.infos && !Stray(s, w) && s.infos[w].entry == Some(s.entries[i].id) ==> w in s.entries[i].windows
    ensures s.entries[i].docked || s.entries[i].windows != {}
    ensures s.entries[i].current == None <==> s.entries[i].windows == {}
    ensures s.entries[i].current == Some(w) ==> w in s.entries[i].windows
    ensures s.entries[i].infos == s.entries[i].windows
    ensures s.entries[i].docked ==> s.entries[i].app.Some?
    ensures ActiveWin(s) == Some(w) ==> (s.entries[i].active <==> w in s.entries[i].windows)
  {
    assert EntryOk(s.entries[i]);
    if w in s.infos && !Stray(s, w) && s.infos[w].entry == Some(s.entries[i].id) {
      var k := FindWindow(s.entries, w);
      assert s.entries[k].id == s.entries[i].id;
    }
    if w in s.entries[i].windows {
      LinkIs(s.entries, i, w);
    }
    if i != j {
      var k, l := if i < j then i else j, if i < j then j else i;
      assert s.entries[k].windows !! s.entries[l].windows;
    }
  }

  /** Attaching an unattached window keeps the table consistent exactly when its entry already exists or the
      new one could be exported: a failed export leaves a back-pointer to an entry nobody lists. */
  lemma AttachNeedsExport(s: State, w: Window, exported: bool)
    requires Inv(s) && w in s.infos && s.infos[w].entry == None
    ensures Inv(AttachWindow(s, w, exported)) <==> exported || FindInner(s.entries, s.infos[w].entryInnerId) >= 0
  {
    AttachWindowKeeps(s, w, exported);
  }

  // ---- start-up ----

  lemma {:induction false} DockedOk(apps: seq<AppInfo>, first: nat)
    ensures var r := Docked(apps, first);
            && |r| == |apps|
            && forall i :: 0 <= i < |r| ==>
                 r[i] == NewEntry(first + i, apps[i].innerId, Some(apps[i])).(docked := true)
    decreases |apps|
  {
    if apps != [] {
      DockedOk(apps[1..], first + 1);
    }
  }

  lemma {:induction false} AttachAllKeeps(s: State, list: seq<Window>, looks: seq<Look>)
    requires |looks| == |list| && Core(s)
    ensures Core(AttachAll(s, list, looks))
    ensures (forall i :: 0 <= i < |looks| ==> looks[i].exported) ==> Keeps(s, AttachAll(s, list, looks))
    decreases |list|
  {
    if list != [] {
      RegisterKeeps(s, list[0]);
      AttachOrDetachKeeps(Register(s, list[0]), list[0], looks[0]);
      AttachAllKeeps(AttachOrDetach(Register(s, list[0]), list[0], looks[0]), list[1..], looks[1..]);
    }
  }

  /** The dock starts with a consistent table, and with no strays if exports succeed. */
  lemma StartIsConsistent(dirs: Dirs, apps: seq<AppInfo>, list: seq<Window>, looks: seq<Look>)
    requires |looks| == |list|
    ensures Core(Start(dirs, apps, list, looks))
    ensures (forall i :: 0 <= i < |looks| ==> looks[i].exported) ==> Inv(Start(dirs, apps, list, looks))
  {
    DockedOk(apps, 0);
    AttachAllKeeps(BeforeWindows(dirs, apps, list), list, looks);
  }
}
