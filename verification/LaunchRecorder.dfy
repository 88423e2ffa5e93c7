/** SubRecorder (apps/subrecorder.go): three maps whose history decides whether an application counts
    as new. */
module LaunchRecorder {
  import opened Collections

  datatype Records = Records(launched: map<string, bool>, removed: map<string, bool>, hints: set<string>)

  datatype Event =
    | Hint(name: string)
    | Added(name: string)
    | Removed(name: string)
    | DirRemoved(dir: string)
    | Launched(name: string)

  /** Does removing the directory take this application with it? */
  predicate Under(dir: string, name: string) {
    dir == "." || dir + "/" <= name
  }

  function Apply(s: Records, e: Event): Records {
    match e
    case Hint(n) => s.(hints := s.hints + {n})
    case Added(n) =>
      var t := if n in s.launched then s
               else s.(launched := s.launched[n := n in s.removed && s.removed[n]], removed := s.removed - {n});
      t.(hints := t.hints - {n})
    case Removed(n) =>
      if n !in s.launched then s
      else
        var t := if n in s.hints then s else s.(removed := s.removed[n := s.launched[n]]);
        t.(launched := t.launched - {n})
    case DirRemoved(d) => s.(launched := map n | n in s.launched && !Under(d, n) :: s.launched[n])
    case Launched(n) => if n in s.launched then s.(launched := s.launched[n := true]) else s
  }

  class SubRecorder {
    var launched: map<string, bool>
    var removed: map<string, bool>
    var hints: set<string>

    constructor (initial: map<string, bool>)
      ensures View() == Records(initial, map[], {})
    {
      launched, removed, hints := initial, map[], {};
    }

    ghost function View(): Records
      reads this
    {
      Records(launched, removed, hints)
    }

    method UninstallHint(name: string)
      modifies this
      ensures View() == Apply(old(View()), Hint(name))
    {
      hints := hints + {name};
    }

    method HandleAdded(name: string)
      modifies this
      ensures View() == Apply(old(View()), Added(name))
    {
      if name !in launched {
        var flag := false;
        if name in removed {
          flag := removed[name];
          removed := removed - {name};
        }
        launched := launched[name := flag];
      }
      hints := hints - {name};
      assert old(removed) - {name} == old(removed) || name in old(removed);
    }

    method HandleRemoved(name: string)
      modifies this
      ensures View() == Apply(old(View()), Removed(name))
    {
      if name !in launched {
        return;
      }
      if name !in hints {
        removed := removed[name := launched[name]];
      }
      launched := launched - {name};
    }

    method HandleDirRemoved(dir: string) returns (changed: bool)
      modifies this`launched
      ensures View() == Apply(old(View()), DirRemoved(dir))
      ensures changed <==> launched != old(launched)
    {
      ghost var was := launched;
      changed := false;
      if dir == "." {
        if |launched| > 0 {
          launched := map[];
          changed := true;
        }
        assert forall n :: Under(dir, n);
        assert was != map[] ==> exists n :: n in was;
      } else {
        var prefix := dir + "/";
        var pending := launched.Keys;
        while pending != {}
          invariant pending <= launched.Keys <= was.Keys
          invariant forall n :: n in launched ==> launched[n] == was[n]
          invariant forall n :: n in was && n !in launched ==> prefix <= n
          invariant forall n :: n in launched && n !in pending ==> !(prefix <= n)
          invariant changed <==> launched.Keys != was.Keys
          decreases |pending|
        {
          var app :| app in pending;
          pending := pending - {app};
          if prefix <= app {
            launched := launched - {app};
            changed := true;
          }
        }
      }
    }

    method MarkLaunched(name: string) returns (changed: bool)
      modifies this`launched
      ensures View() == Apply(old(View()), Launched(name))
      ensures changed <==> launched != old(launched)
    {
      if name in launched && !launched[name] {
        launched := launched[name := true];
        return true;
      }
      return false;
    }
  }

  /** checkStatus: afterwards exactly the installed applications are known, old flags survive, unseen ones are new. */
  method CheckStatus(launched: map<string, bool>, apps: seq<string>) returns (result: map<string, bool>, changed: bool)
    ensures result.Keys == set a | a in apps
    ensures forall a :: a in result ==> result[a] == (a in launched && launched[a])
    ensures changed <==> result.Keys != launched.Keys
  {
    var added: bool, dropped: bool;
    result, added := AddUnseen(launched, apps);
    result, dropped := DropUninstalled(result, set a | a in apps);
    changed := added || dropped;
  }

  /** The first loop of checkStatus. */
  method AddUnseen(launched: map<string, bool>, apps: seq<string>) returns (result: map<string, bool>, changed: bool)
    ensures result.Keys == launched.Keys + set a | a in apps
    ensures forall a :: a in result ==> result[a] == (a in launched && launched[a])
    ensures changed <==> exists a :: a in apps && a !in launched
  {
    result, changed := launched, false;
    var i := 0;
    while i < |apps|
      invariant 0 <= i <= |apps|
      invariant forall a :: a in result <==> a in launched || a in apps[..i]
      invariant forall a :: a in result ==> result[a] == (a in launched && launched[a])
      invariant changed <==> exists a :: a in apps[..i] && a !in launched
    {
      assert apps[..i + 1] == apps[..i] + [apps[i]];
      assert apps[i] in apps[..i + 1];
      if apps[i] !in result {
        changed := true;
        result := result[apps[i] := false];
      }
      i := i + 1;
    }
    assert apps[..i] == apps;
  }

  /** The second loop of checkStatus, over the map it deletes from. */
  method DropUninstalled(launched: map<string, bool>, installed: set<string>)
    returns (result: map<string, bool>, changed: bool)
    requires installed <= launched.Keys
    ensures result.Keys == installed
    ensures forall a :: a in result ==> result[a] == launched[a]
    ensures changed <==> exists a :: a in launched && a !in installed
  {
    result, changed := launched, false;
    var pending := launched.Keys;
    while pending != {}
      invariant pending <= result.Keys <= launched.Keys
      invariant installed <= result.Keys
      invariant forall a :: a in result && a !in pending ==> a in installed
      invariant forall a :: a in result ==> result[a] == launched[a]
      invariant changed <==> exists a :: a in launched && a !in pending && a !in installed
      decreases |pending|
    {
      var app :| app in pending;
      pending := pending - {app};
      if app !in installed {
        changed := true;
        result := result - {app};
      }
    }
  }

  // ---- runs ----

  function Run(s: Records, events: seq<Event>): Records
    decreases |events|
  {
    if events == [] then s else Run(Apply(s, events[0]), events[1..])
  }

  ghost predicate Disjoint(s: Records) {
    s.launched.Keys !! s.removed.Keys
  }

  /** An application is never both known and remembered as removed. */
  lemma {:induction false} RunKeepsDisjoint(s: Records, events: seq<Event>)
    requires Disjoint(s)
    ensures Disjoint(Run(s, events))
    decreases |events|
  {
    if events != [] {
      RunKeepsDisjoint(Apply(s, events[0]), events[1..]);
    }
  }

  /** What the three maps say about one application. */
  datatype Status = Status(known: Option<bool>, saved: Option<bool>, hinted: bool)

  function StatusOf(s: Records, n: string): Status {
    Status(if n in s.launched then Some(s.launched[n]) else None,
           if n in s.removed then Some(s.removed[n]) else None,
           n in s.hints)
  }

  /** The life of a single application, with no maps: an independent account of the same events. */
  function Advance(v: Status, e: Event, n: string): Status {
    match e
    case Hint(m) => if m == n then v.(hinted := true) else v
    case Added(m) =>
      if m != n then v
      else if v.known.Some? then v.(hinted := false)
      else Status(Some(v.saved == Some(true)), None, false)
    case Removed(m) =>
      if m != n || v.known.None? then v
      else Status(None, if v.hinted then v.saved else v.known, v.hinted)
    case DirRemoved(d) => if Under(d, n) then v.(known := None) else v
    case Launched(m) => if m == n && v.known.Some? then v.(known := Some(true)) else v
  }

  function Life(v: Status, events: seq<Event>, n: string): Status
    decreases |events|
  {
    if events == [] then v else Life(Advance(v, events[0], n), events[1..], n)
  }

  /** No application's status depends on the others': the maps are a product of single lives. */
  lemma {:induction false} RunIsPerApplication(s: Records, events: seq<Event>, n: string)
    ensures StatusOf(Run(s, events), n) == Life(StatusOf(s, n), events, n)
    decreases |events|
  {
    if events != [] {
      RunIsPerApplication(Apply(s, events[0]), events[1..], n);
    }
  }

  lemma {:induction false} AbsentStaysPut(v: Status, events: seq<Event>, n: string)
    requires v.known == None
    requires Added(n) !in events
    ensures Life(v, events, n).known == None && Life(v, events, n).saved == v.saved
    decreases |events|
  {
    if events != [] {
      AbsentStaysPut(Advance(v, events[0], n), events[1..], n);
    }
  }

  /** An application that goes away and comes back, with any other events in between: its flag returns if
      it was removed without a pending uninstall hint, and it is new again if it was removed with one or
      together with its directory. */
  lemma ComesBack(s: Records, n: string, gone: Event, between: seq<Event>)
    requires Disjoint(s) && n in s.launched
    requires gone == Removed(n) || (gone.DirRemoved? && Under(gone.dir, n))
    requires Added(n) !in between
    ensures var t := Apply(Run(Apply(s, gone), between), Added(n));
            && n in t.launched
            && t.launched[n] == (gone.Removed? && n !in s.hints && s.launched[n])
            && n !in t.removed && n !in t.hints
  {
    var v := StatusOf(Apply(s, gone), n);
    RunIsPerApplication(Apply(s, gone), between, n);
    AbsentStaysPut(v, between, n);
    RunKeepsDisjoint(Apply(s, gone), between);
  }

  // ---- single events, for every application ----

  /** A name inside the directory, or any name for ".". */
  ghost predicate Inside(dir: string, n: string) {
    dir == "." || (|dir| < |n| && n[..|dir|] == dir && n[|dir|] == '/')
  }

  /** Removing a directory drops exactly the applications inside it and touches nothing else; "kde" takes
      "kde/konsole" with it but not "kdeconnect". */
  lemma DirRemovedExactly(s: Records, dir: string)
    ensures var t := Apply(s, DirRemoved(dir));
            && t == s.(launched := t.launched)
            && forall n :: (n in t.launched <==> n in s.launched && !Inside(dir, n))
                           && (n in t.launched ==> t.launched[n] == s.launched[n])
  {
    forall n ensures Under(dir, n) <==> Inside(dir, n) {
      if dir != "." {
        InsidePrefix(dir, n);
      }
    }
  }

  lemma InsidePrefix(dir: string, n: string)
    ensures dir + "/" <= n <==> |dir| < |n| && n[..|dir|] == dir && n[|dir|] == '/'
  {
    var prefix := dir + "/";
    if |prefix| <= |n| {
      assert n[..|prefix|] == n[..|dir|] + [n[|dir|]];
      assert prefix <= n <==> n[..|prefix|] == prefix;
    }
  }

  /** An event about one application leaves every other one alone. */
  lemma OthersUntouched(s: Records, e: Event, n: string)
    requires !e.DirRemoved? && e.name != n
    ensures StatusOf(Apply(s, e), n) == StatusOf(s, n)
  {
  }

  /** Once launched, an application counts as launched until it is removed. */
  lemma {:induction false} OnceLaunched(s: Records, n: string, events: seq<Event>)
    requires n in s.launched
    requires forall i :: 0 <= i < |events| ==>
               events[i] != Removed(n) && (events[i].DirRemoved? ==> !Inside(events[i].dir, n))
    ensures var t := Run(Apply(s, Launched(n)), events); n in t.launched && t.launched[n]
    decreases |events|
  {
    StaysLaunched(Apply(s, Launched(n)), n, events);
  }

  lemma {:induction false} StaysLaunched(s: Records, n: string, events: seq<Event>)
    requires n in s.launched && s.launched[n]
    requires forall i :: 0 <= i < |events| ==>
               events[i] != Removed(n) && (events[i].DirRemoved? ==> !Inside(events[i].dir, n))
    ensures var t := Run(s, events); n in t.launched && t.launched[n]
    decreases |events|
  {
    if events != [] {
      if events[0].DirRemoved? {
        DirRemovedExactly(s, events[0].dir);
      }
      StaysLaunched(Apply(s, events[0]), n, events[1..]);
    }
  }

  /** Uninstalled after a hint, an application is new when it comes back, whether or not it had been launched. */
  lemma HintedUninstall(s: Records, n: string, between: seq<Event>)
    requires Disjoint(s) && n in s.launched && Added(n) !in between
    ensures var gone := Apply(Apply(s, Hint(n)), Removed(n));
            var t := Apply(Run(gone, between), Added(n));
            n !in gone.launched && n in t.launched && !t.launched[n]
  {
    ComesBack(Apply(s, Hint(n)), n, Removed(n), between);
  }

  /** An added application is known with its old flag, or the one remembered from its removal, or as new; it is
      no longer remembered as removed unless it was known all along, and any hint is gone. */
  lemma AddedExactly(s: Records, n: string)
    ensures var t := Apply(s, Added(n));
            && n in t.launched && n !in t.hints
            && t.launched[n] == (if n in s.launched then s.launched[n] else n in s.removed && s.removed[n])
            && (n in t.removed <==> n in s.removed && n in s.launched)
            && (n in t.removed ==> t.removed[n] == s.removed[n])
  {
  }

  /** A removed application is no longer known; its flag is remembered unless its removal was hinted, and a
      hint stays until the application is added again. */
  lemma RemovedExactly(s: Records, n: string)
    ensures var t := Apply(s, Removed(n));
            && n !in t.launched && t.hints == s.hints
            && (if n in s.launched && n !in s.hints then n in t.removed && t.removed[n] == s.launched[n]
                else (n in t.removed <==> n in s.removed) && (n in t.removed ==> t.removed[n] == s.removed[n]))
  {
  }
}
