/** The dock's entries and the list that holds them: AppEntry (dock/app_entry.go) and AppEntries
    (dock/app_entries.go) as values. */
module DockEntries {
  import opened Collections
  import opened WindowSlice

  /** A desktop file: whether it is an installed application, lies in the scratch directory, and has a
      base name that starts with the window-hash prefix. */
  datatype AppInfo = AppInfo(file: string, innerId: string, installed: bool, scratch: bool, hashed: bool)

  datatype Entry = Entry(
    id: nat,
    innerId: string,
    windows: set<Window>,
    current: Option<Window>,
    infos: set<Window>,
    active: bool,
    docked: bool,
    app: Option<AppInfo>)

  /** EntryAdded and EntryRemoved, as emitted by the insert and remove callbacks. */
  datatype Signal = EntryAdded(id: nat, index: nat) | EntryRemoved(id: nat)

  function NewEntry(id: nat, innerId: string, app: Option<AppInfo>): Entry {
    Entry(id, innerId, {}, None, {}, false, false, app)
  }

  function IsActive(active: Option<Window>, windows: set<Window>): bool {
    active.Some? && active.value in windows
  }

  /** AppEntry.attachWindow. */
  function Attach(e: Entry, w: Window, active: Option<Window>): Entry {
    if w in e.windows then e
    else
      var ws := e.windows + {w};
      e.(windows := ws, infos := ws, active := IsActive(active, ws),
         current := if e.current == None then Some(w) else e.current)
  }

  ghost function Any(ws: set<Window>): (w: Window)
    requires ws != {}
    ensures w in ws
  {
    assert (forall x :: x !in ws) ==> ws == {};
    var x :| x in ws;
    x
  }

  /** Which window a map iteration yields first is up to the runtime: `pick`, when it is one of them. */
  ghost function FirstOf(ws: set<Window>, pick: Window): (w: Window)
    requires ws != {}
    ensures w in ws
  {
    if pick in ws then pick else Any(ws)
  }

  /** AppEntry.detachWindow; the entry is to be removed when it ends up neither docked nor with a window. */
  ghost function Detach(e: Entry, w: Window, pick: Window, active: Option<Window>): Entry {
    var ws := e.windows - {w};
    if ws == {} && !e.docked then e.(windows := ws)
    else
      e.(windows := ws, infos := ws, active := IsActive(active, ws),
         current := if ws == {} then None else Some(FirstOf(ws, pick)))
  }

  predicate Removable(e: Entry) {
    e.windows == {} && !e.docked
  }

  /** The effect of handleActiveWindowChanged on one entry. */
  function Activate(e: Entry, w: Window): Entry {
    if w in e.windows then e.(active := true, current := Some(w)) else e.(active := false)
  }

  // ---- the list ----

  /** GetByInnerId. */
  function FindInner(entries: seq<Entry>, innerId: string): (i: int)
    ensures -1 <= i < |entries|
    ensures i >= 0 ==> entries[i].innerId == innerId
    ensures forall k :: 0 <= k < (if i < 0 then |entries| else i) ==> entries[k].innerId != innerId
  {
    if entries == [] then -1
    else if entries[0].innerId == innerId then 0
    else
      var i := FindInner(entries[1..], innerId);
      if i < 0 then -1 else i + 1
  }

  /** getByWindowId. */
  function FindWindow(entries: seq<Entry>, w: Window): (i: int)
    ensures -1 <= i < |entries|
    ensures i >= 0 ==> w in entries[i].windows
    ensures forall k :: 0 <= k < (if i < 0 then |entries| else i) ==> w !in entries[k].windows
  {
    if entries == [] then -1
    else if w in entries[0].windows then 0
    else
      var i := FindWindow(entries[1..], w);
      if i < 0 then -1 else i + 1
  }

  /** indexOf: the last entry with this id. */
  function IndexOf(entries: seq<Entry>, id: nat): (i: int)
    ensures -1 <= i < |entries|
    ensures i >= 0 ==> entries[i].id == id
    ensures forall k :: i < k < |entries| ==> entries[k].id != id
  {
    if entries == [] then -1
    else if entries[|entries| - 1].id == id then |entries| - 1
    else IndexOf(entries[..|entries| - 1], id)
  }

  /** Insert: an index out of range appends. */
  function InsertIndex(n: nat, index: int): (i: nat)
    ensures i <= n
  {
    if index < 0 || index >= n then n else index
  }

  /** Move: take out the entry at i and put it back at j. */
  function Moved<T>(s: seq<T>, i: nat, j: nat): (r: seq<T>)
    requires i < |s| && j < |s|
    ensures |r| == |s|
  {
    InsertAt(RemoveAt(s, i), s[i], j)
  }

  /** Where the element at position k of a moved list came from. */
  function Origin(i: nat, j: nat, k: nat): nat {
    if k == j then i
    else
      var l := if k < j then k else k - 1;
      if l < i then l else l + 1
  }

  lemma MovedAt<T>(s: seq<T>, i: nat, j: nat)
    requires i < |s| && j < |s|
    ensures forall k :: 0 <= k < |s| ==> Origin(i, j, k) < |s| && Moved(s, i, j)[k] == s[Origin(i, j, k)]
  {
    var rest := RemoveAt(s, i);
    forall k | 0 <= k < |s| ensures Origin(i, j, k) < |s| && Moved(s, i, j)[k] == s[Origin(i, j, k)] {
      if k != j {
        var l := if k < j then k else k - 1;
        assert Moved(s, i, j)[k] == rest[l];
        assert rest[l] == s[if l < i then l else l + 1];
      }
    }
  }

  function Ids(entries: seq<Entry>): seq<nat> {
    seq(|entries|, i requires 0 <= i < |entries| => entries[i].id)
  }

  ghost predicate DistinctIds(entries: seq<Entry>) {
    forall i, j :: 0 <= i < j < |entries| ==> entries[i].id != entries[j].id
  }

  // ---- Move ----

  /** Moving there and back is the identity. */
  lemma MoveBack<T>(s: seq<T>, i: nat, j: nat)
    requires i < |s| && j < |s|
    ensures Moved(Moved(s, i, j), j, i) == s
  {
    var rest, m := RemoveAt(s, i), Moved(s, i, j);
    assert m[j] == s[i];
    assert RemoveAt(m, j) == rest;
    assert rest[..i] == s[..i] && rest[i..] == s[i + 1..];
  }

  /** Moving one entry keeps all the others in order. */
  lemma MoveKeepsOthers<T>(s: seq<T>, i: nat, j: nat)
    requires i < |s| && j < |s|
    ensures Moved(s, i, j)[j] == s[i]
    ensures RemoveAt(Moved(s, i, j), j) == RemoveAt(s, i)
  {
  }

  /** The first append of AppEntries.Move: everything after i moves down one place. */
  method CloseGap<T>(a: array<T>, i: nat)
    requires i < a.Length
    modifies a
    ensures a[..a.Length - 1] == RemoveAt(old(a[..]), i)
  {
    ghost var was := a[..];
    var n, k := a.Length, i;
    while k + 1 < n
      invariant i <= k < n
      invariant forall m :: 0 <= m < i ==> a[m] == was[m]
      invariant forall m :: i <= m < k ==> a[m] == was[m + 1]
      invariant forall m :: k <= m < n ==> a[m] == was[m]
    {
      a[k] := a[k + 1];
      k := k + 1;
    }
  }

  /** An append that writes into the backing array from place j on. */
  method WriteFrom<T>(a: array<T>, j: nat, tail: seq<T>)
    requires j + |tail| == a.Length
    modifies a
    ensures a[..] == old(a[..j]) + tail
  {
    ghost var head := a[..j];
    var k := 0;
    while k < |tail|
      invariant 0 <= k <= |tail|
      invariant forall m :: 0 <= m < j ==> a[m] == head[m]
      invariant forall m :: 0 <= m < k ==> a[j + m] == tail[m]
    {
      a[j + k] := tail[k];
      k := k + 1;
    }
    assert forall m :: j <= m < a.Length ==> a[m] == tail[m - j];
  }

  /** AppEntries.Move on the backing array: both appends of the source copy within the same array, the
      inner one through a fresh slice so that nothing is overwritten before it is read. */
  method MoveInPlace<T>(a: array<T>, i: nat, j: nat)
    requires i < a.Length && j < a.Length
    modifies a
    ensures a[..] == Moved(old(a[..]), i, j)
  {
    var n, entry := a.Length, a[i];
    CloseGap(a, i);
    ghost var rest := a[..n - 1];
    assert a[j..n - 1] == rest[j..] && a[..j] == rest[..j];
    WriteFrom(a, j, [entry] + a[j..n - 1]);
  }

  // ---- a mirror fed by the signals ----

  /** What a listener does with one signal. */
  function Replay1(ids: seq<nat>, s: Signal): seq<nat> {
    match s
    case EntryAdded(id, index) => if index <= |ids| then InsertAt(ids, id, index) else ids
    case EntryRemoved(id) => Drop(ids, id)
  }

  function Drop(ids: seq<nat>, id: nat): seq<nat> {
    if ids == [] then []
    else if ids[0] == id then Drop(ids[1..], id)
    else [ids[0]] + Drop(ids[1..], id)
  }

  function Replay(ids: seq<nat>, signals: seq<Signal>): seq<nat>
    decreases |signals|
  {
    if signals == [] then ids else Replay1(Replay(ids, signals[..|signals| - 1]), signals[|signals| - 1])
  }

  lemma ReplayAppend(ids: seq<nat>, signals: seq<Signal>, s: Signal)
    ensures Replay(ids, signals + [s]) == Replay1(Replay(ids, signals), s)
  {
    assert (signals + [s])[..|signals|] == signals;
  }

  lemma IdsOfInsert(entries: seq<Entry>, e: Entry, i: nat)
    requires i <= |entries|
    ensures Ids(InsertAt(entries, e, i)) == InsertAt(Ids(entries), e.id, i)
  {
  }

  lemma {:induction false} DropAbsent(ids: seq<nat>, id: nat)
    requires id !in ids
    ensures Drop(ids, id) == ids
  {
    if ids != [] {
      DropAbsent(ids[1..], id);
    }
  }

  lemma {:induction false} DropConcat(a: seq<nat>, b: seq<nat>, id: nat)
    ensures Drop(a + b, id) == Drop(a, id) + Drop(b, id)
  {
    if a == [] {
      assert a + b == b;
    } else {
      assert (a + b)[1..] == a[1..] + b;
      DropConcat(a[1..], b, id);
    }
  }

  lemma IdsOfRemove(entries: seq<Entry>, i: nat)
    requires i < |entries| && DistinctIds(entries)
    ensures Ids(RemoveAt(entries, i)) == Drop(Ids(entries), entries[i].id)
  {
    var a, b, id := Ids(entries[..i]), Ids(entries[i + 1..]), entries[i].id;
    IdsAround(entries, i);
    DropConcat(a, [id] + b, id);
    DropAbsent(a, id);
    assert ([id] + b)[1..] == b;
    DropAbsent(b, id);
  }

  lemma IdsAround(entries: seq<Entry>, i: nat)
    requires i < |entries|
    ensures Ids(entries) == Ids(entries[..i]) + ([entries[i].id] + Ids(entries[i + 1..]))
    ensures Ids(RemoveAt(entries, i)) == Ids(entries[..i]) + Ids(entries[i + 1..])
  {
  }

  /** Move emits no signal, so a successful one leaves every mirror with the wrong order. */
  lemma MoveBreaksMirror(entries: seq<Entry>, i: nat, j: nat)
    requires i < |entries| && j < |entries| && i != j && DistinctIds(entries)
    ensures Ids(Moved(entries, i, j)) != Ids(entries)
  {
    var m := Moved(entries, i, j);
    assert m[j] == entries[i];
    assert Ids(m)[j] == entries[i].id != entries[j].id == Ids(entries)[j];
  }
}
