/** dock/desktop_file_path.go: docked applications are stored with their directory abbreviated to a code
    and the .desktop extension dropped. Go iterates over a map in no fixed order, so the order is a
    parameter and the results hold for all of them. A character stands for a byte of the path. */
module DesktopPath {
  import opened Collections

  const EXT: string := ".desktop"

  predicate HasExt(p: string) {
    |p| >= |EXT| && p[|p| - |EXT|..] == EXT
  }

  function AddExt(p: string): string {
    if HasExt(p) then p else p + EXT
  }

  function TrimExt(p: string): string {
    if HasExt(p) then p[..|p| - |EXT|] else p
  }

  type Table = map<string, string>

  /** initPathDirCodeMap, for the home and scratch directories with their trailing slash. */
  function DirCodes(home: string, scratch: string): Table {
    FourDirs(SHARE, LOCAL, home, scratch)
  }

  function FourDirs(share: string, local: string, home: string, scratch: string): Table {
    map[share := "/S@"][local := "/L@"][home := "/H@"][scratch := "/D@"]
  }

  /** One order in which a map's entries may be visited, each once. */
  ghost predicate Visits(order: seq<(string, string)>, table: Table) {
    && |order| == |table|
    && (forall i :: 0 <= i < |order| ==> order[i].0 in table && table[order[i].0] == order[i].1)
    && (forall d :: d in table ==> (d, table[d]) in order)
  }

  /** The loop of zipDesktopPath, which does not stop at the first match. */
  function Shorten(order: seq<(string, string)>, path: string): string {
    if order == [] then path
    else
      var (dir, code) := order[0];
      Shorten(order[1..], if dir <= path then code + path[|dir|..] else path)
  }

  function Zip(order: seq<(string, string)>, path: string): string {
    TrimExt(Shorten(order, path))
  }

  /** unzipDesktopPath. Slicing the first three bytes panics on a shorter path. */
  function Unzip(order: seq<(string, string)>, path: string): Option<string> {
    if |path| < 3 then None else Some(AddExt(Lengthen(order, path)))
  }

  function Lengthen(order: seq<(string, string)>, path: string): string
    requires |path| >= 3
  {
    if order == [] then path
    else if order[0].1 == path[..3] then order[0].0 + path[3..]
    else Lengthen(order[1..], path)
  }

  /** The runtime may visit a map in any order. */
  method AnyOrder(table: Table) returns (order: seq<(string, string)>)
    ensures Visits(order, table)
  {
    order := [];
    var pending := table.Keys;
    while pending != {}
      invariant pending <= table.Keys && |order| + |pending| == |table.Keys|
      invariant forall i :: 0 <= i < |order| ==> order[i].0 in table && table[order[i].0] == order[i].1
      invariant forall d :: d in table && d !in pending ==> (d, table[d]) in order
      decreases |pending|
    {
      var d :| d in pending;
      pending := pending - {d};
      order := order + [(d, table[d])];
    }
  }

  method ZipDesktopPath(order: seq<(string, string)>, path: string) returns (zipped: string)
    ensures zipped == Zip(order, path)
  {
    var p := path;
    var i := 0;
    while i < |order|
      invariant 0 <= i <= |order|
      invariant Shorten(order[i..], p) == Shorten(order, path)
    {
      var (dir, code) := order[i];
      assert order[i..][0] == order[i] && order[i..][1..] == order[i + 1..];
      if dir <= p {
        p := code + p[|dir|..];
      }
      i := i + 1;
    }
    assert order[i..] == [];
    zipped := TrimExt(p);
  }

  method UnzipDesktopPath(order: seq<(string, string)>, path: string) returns (full: Option<string>)
    ensures full == Unzip(order, path)
  {
    if |path| < 3 {
      return None;
    }
    var head := path[..3];
    var i := 0;
    while i < |order|
      invariant 0 <= i <= |order|
      invariant Lengthen(order[i..], path) == Lengthen(order, path)
    {
      assert order[i..][0] == order[i] && order[i..][1..] == order[i + 1..];
      if order[i].1 == head {
        return Some(AddExt(order[i].0 + path[3..]));
      }
      i := i + 1;
    }
    assert order[i..] == [];
    return Some(AddExt(path));
  }

  /** Directories end in a slash; codes have three characters, are distinct and overlap no directory. */
  ghost predicate Coded(table: Table) {
    && (forall d :: d in table ==> IsDir(d) && |table[d]| == 3)
    && (forall d, e :: d in table && e in table ==> !(table[e] <= d) && !(d <= table[e]))
    && (forall d, e :: d in table && e in table && table[d] == table[e] ==> d == e)
  }

  /** No directory lies inside another. */
  ghost predicate Flat(table: Table) {
    forall d, e :: d in table && e in table && d <= e ==> d == e
  }

  /** The directories can be told apart. */
  ghost predicate Unambiguous(table: Table) {
    Coded(table) && Flat(table)
  }

  ghost predicate IsCode(c: string) {
    c == "/S@" || c == "/L@" || c == "/H@" || c == "/D@"
  }

  lemma FourDirsShape(table: Table, share: string, local: string, home: string, scratch: string)
    requires table == FourDirs(share, local, home, scratch)
    ensures table.Keys == {share, local, home, scratch}
    ensures forall d :: d in table ==> IsCode(table[d])
    ensures forall d, e :: d in table && e in table && table[d] == table[e] ==> d == e
  {
    var s, l, h, d := "/S@", "/L@", "/H@", "/D@";
    assert s[1] != l[1] && s[1] != h[1] && s[1] != d[1] && l[1] != h[1] && l[1] != d[1] && h[1] != d[1];
  }

  lemma NotInsideCode(d: string, c: string)
    requires IsDir(d) && d != "/" && IsCode(c)
    ensures !(d <= c)
  {
    assert c[1] != '/' && c[2] != '/';
  }

  ghost predicate IsDir(d: string) {
    |d| > 0 && d[|d| - 1] == '/'
  }

  /** Neither directory lies inside the other, unless they are the same. */
  ghost predicate Separate(d: string, e: string) {
    d <= e || e <= d ==> d == e
  }

  const SHARE: string := "/usr/share/applications/"
  const LOCAL: string := "/usr/local/share/applications/"

  lemma ConstantDirs()
    ensures IsDir(SHARE) && IsDir(LOCAL) && SHARE != "/" && LOCAL != "/" && "/" <= SHARE
    ensures Separate(SHARE, LOCAL)
    ensures forall c :: IsCode(c) ==> !(c <= SHARE) && !(c <= LOCAL)
  {
    assert SHARE[5] != LOCAL[5];
    forall c | IsCode(c) ensures !(c <= SHARE) && !(c <= LOCAL) {
      assert c[2] == '@' && SHARE[2] != '@' && LOCAL[2] != '@';
    }
  }

  lemma FourSeparate(share: string, local: string, home: string, scratch: string, dirs: set<string>)
    requires dirs == {share, local, home, scratch}
    requires IsDir(share) && IsDir(local) && IsDir(home) && IsDir(scratch)
    requires share != "/" && "/" <= share && local != "/" && Separate(share, local)
    requires Separate(home, share) && Separate(home, local) && Separate(home, scratch)
    requires Separate(scratch, share) && Separate(scratch, local)
    ensures forall d :: d in dirs ==> IsDir(d) && d != "/"
    ensures forall d, e :: d in dirs && e in dirs && d <= e ==> d == e
  {
    forall d, e | d in dirs && e in dirs && d <= e ensures d == e {
      assert Separate(d, e) || Separate(e, d);
    }
  }

  lemma CodedDirs(table: Table)
    requires forall d :: d in table ==> IsDir(d) && d != "/" && IsCode(table[d])
    requires forall d, e :: d in table && e in table && d <= e ==> d == e
    requires forall d, e :: d in table && e in table ==> !(table[e] <= d)
    requires forall d, e :: d in table && e in table && table[d] == table[e] ==> d == e
    ensures Unambiguous(table)
  {
    forall d, e | d in table && e in table ensures !(d <= table[e]) {
      NotInsideCode(d, table[e]);
    }
  }

  /** The home and scratch directories nest with no other listed directory and start with no listed code. */
  ghost predicate Clear(table: Table, share: string, local: string, home: string, scratch: string) {
    && Separate(home, share) && Separate(home, local) && Separate(home, scratch)
    && Separate(scratch, share) && Separate(scratch, local)
    && forall d :: d in table ==> !(table[d] <= home) && !(table[d] <= scratch)
  }

  lemma FourDirsExactly(table: Table, share: string, local: string, home: string, scratch: string)
    requires table == FourDirs(share, local, home, scratch)
    requires IsDir(share) && IsDir(local) && IsDir(home) && IsDir(scratch)
    requires share != "/" && "/" <= share && local != "/" && Separate(share, local)
    requires forall c :: IsCode(c) ==> !(c <= share) && !(c <= local)
    ensures Unambiguous(table) <==> Clear(table, share, local, home, scratch)
  {
    FourDirsShape(table, share, local, home, scratch);
    if Clear(table, share, local, home, scratch) {
      ClearSuffices(table, share, local, home, scratch);
    }
    if Unambiguous(table) {
      ClearNeeded(table, share, local, home, scratch);
    }
  }

  lemma NoDirCoded(table: Table, share: string, local: string, home: string, scratch: string)
    requires table.Keys == {share, local, home, scratch}
    requires forall d :: d in table ==> IsCode(table[d]) && !(table[d] <= home) && !(table[d] <= scratch)
    requires forall c :: IsCode(c) ==> !(c <= share) && !(c <= local)
    ensures forall d, e :: d in table && e in table ==> !(table[e] <= d)
  {
    forall d, e | d in table && e in table ensures !(table[e] <= d) {
      assert IsCode(table[e]);
    }
  }

  lemma ClearNeeded(table: Table, share: string, local: string, home: string, scratch: string)
    requires table.Keys == {share, local, home, scratch} && Unambiguous(table)
    ensures Clear(table, share, local, home, scratch)
  {
    assert home in table && scratch in table && share in table && local in table;
  }

  lemma ClearSuffices(table: Table, share: string, local: string, home: string, scratch: string)
    requires table.Keys == {share, local, home, scratch} && Clear(table, share, local, home, scratch)
    requires forall d :: d in table ==> IsCode(table[d])
    requires forall d, e :: d in table && e in table && table[d] == table[e] ==> d == e
    requires IsDir(share) && IsDir(local) && IsDir(home) && IsDir(scratch)
    requires share != "/" && "/" <= share && local != "/" && Separate(share, local)
    requires forall c :: IsCode(c) ==> !(c <= share) && !(c <= local)
    ensures Unambiguous(table)
  {
    FourSeparate(share, local, home, scratch, table.Keys);
    NoDirCoded(table, share, local, home, scratch);
    CodedDirs(table);
  }

  /** The program's table can be told apart if and only if the home and scratch directories are clear of
      the other directories and of the codes. */
  lemma ProgramTable(home: string, scratch: string)
    requires IsDir(home) && IsDir(scratch)
    ensures Unambiguous(DirCodes(home, scratch)) <==> Clear(DirCodes(home, scratch), SHARE, LOCAL, home, scratch)
  {
    ConstantDirs();
    FourDirsExactly(DirCodes(home, scratch), SHARE, LOCAL, home, scratch);
  }

  lemma {:induction false} ShortenMisses(order: seq<(string, string)>, path: string)
    requires forall i :: 0 <= i < |order| ==> !(order[i].0 <= path)
    ensures Shorten(order, path) == path
  {
    if order != [] {
      ShortenMisses(order[1..], path);
    }
  }

  lemma {:induction false} ShortenHits(order: seq<(string, string)>, table: Table, dir: string, path: string)
    requires Unambiguous(table) && dir in table && dir <= path
    requires forall i :: 0 <= i < |order| ==> order[i].0 in table && table[order[i].0] == order[i].1
    requires (dir, table[dir]) in order
    ensures Shorten(order, path) == table[dir] + path[|dir|..]
  {
    var d := order[0].0;
    if d <= path {
      SamePrefix(table, d, dir, path);
      var short := table[dir] + path[|dir|..];
      forall i | 0 <= i < |order[1..]| ensures !(order[1..][i].0 <= short) {
        CodesHide(table, order[1..][i].0, dir, short);
      }
      ShortenMisses(order[1..], short);
    } else {
      ShortenHits(order[1..], table, dir, path);
    }
  }

  lemma SamePrefix(table: Table, d: string, e: string, path: string)
    requires Unambiguous(table) && d in table && e in table && d <= path && e <= path
    ensures d == e
  {
    assert if |d| <= |e| then d <= e else e <= d;
  }

  lemma CodesHide(table: Table, d: string, e: string, path: string)
    requires Unambiguous(table) && d in table && e in table && table[e] <= path
    ensures !(d <= path)
  {
    var code := table[e];
    assert d <= path ==> if |d| <= 3 then d <= code else code <= d;
  }

  lemma {:induction false} LengthenFinds(order: seq<(string, string)>, table: Table, path: string)
    requires Unambiguous(table) && |path| >= 3
    requires forall i :: 0 <= i < |order| ==> order[i].0 in table && table[order[i].0] == order[i].1
    ensures forall d :: d in table && table[d] == path[..3] && (d, table[d]) in order ==>
              Lengthen(order, path) == d + path[3..]
    ensures (forall i :: 0 <= i < |order| ==> order[i].1 != path[..3]) ==> Lengthen(order, path) == path
  {
    if order != [] {
      LengthenFinds(order[1..], table, path);
    }
  }

  /** Dropping a directory that ends in a slash keeps the extension. */
  lemma ExtSurvives(dir: string, code: string, path: string)
    requires |dir| > 0 && dir[|dir| - 1] == '/' && dir <= path && HasExt(path)
    ensures |path| - |dir| >= |EXT| && HasExt(code + path[|dir|..])
    ensures TrimExt(code + path[|dir|..]) == code + path[|dir|..|path| - |EXT|]
  {
    var n := |path| - |EXT|;
    assert forall i :: 0 <= i < |EXT| ==> path[n + i] == EXT[i] != '/';
    var short := code + path[|dir|..];
    assert short[|short| - |EXT|..] == path[n..];
    assert short[..|short| - |EXT|] == code + path[|dir|..n];
  }

  /** For directories that can be told apart the stored name does not depend on the iteration order. */
  lemma ZipAnyOrder(table: Table, order: seq<(string, string)>, order': seq<(string, string)>, p: string)
    requires Unambiguous(table) && Visits(order, table) && Visits(order', table)
    ensures Zip(order, p) == Zip(order', p)
  {
    if d :| d in table && d <= p {
      ShortenHits(order, table, d, p);
      ShortenHits(order', table, d, p);
    } else {
      ShortenMisses(order, p);
      ShortenMisses(order', p);
    }
  }

  /** Every order stores the name that `dirs` stores. */
  ghost predicate OrderFree(table: Table, dirs: seq<(string, string)>) {
    forall order, p :: Visits(order, table) ==> Zip(order, p) == Zip(dirs, p)
  }

  /** The order that visits the entry at k first. */
  function Front(dirs: seq<(string, string)>, k: nat): seq<(string, string)>
    requires k < |dirs|
  {
    [dirs[k]] + RemoveAt(dirs, k)
  }

  lemma FrontVisits(table: Table, dirs: seq<(string, string)>, k: nat)
    requires Visits(dirs, table) && k < |dirs|
    ensures Visits(Front(dirs, k), table)
  {
    var order := Front(dirs, k);
    assert dirs == dirs[..k] + [dirs[k]] + dirs[k + 1..];
    forall x | x in order ensures x in dirs {
    }
    forall x | x in dirs ensures x in order {
    }
  }

  /** Whichever matching directory is visited first decides the code. */
  lemma FirstMatchDecides(table: Table, order: seq<(string, string)>, p: string)
    requires Coded(table) && Visits(order, table) && order != [] && order[0].0 <= p && HasExt(p)
    ensures |Zip(order, p)| >= 3 && Zip(order, p)[..3] == order[0].1
  {
    var (d, c) := order[0];
    var short := c + p[|d|..];
    forall i | 0 <= i < |order[1..]| ensures !(order[1..][i].0 <= short) {
      assert order[1..][i] == order[i + 1];
      NotBelowCode(order[i + 1].0, c, short);
    }
    ShortenMisses(order[1..], short);
    ExtSurvives(d, c, p);
  }

  lemma NotBelowCode(d: string, code: string, path: string)
    requires code <= path && !(code <= d) && !(d <= code)
    ensures !(d <= path)
  {
    assert d <= path ==> if |d| <= |code| then d <= code else code <= d;
  }

  /** When one listed directory lies inside another, a path in the inner one is stored under the code of
      whichever of the two is visited first. */
  lemma OrderMatters(table: Table, dirs: seq<(string, string)>, i: nat, j: nat, p: string)
    requires Coded(table) && Visits(dirs, table) && i < |dirs| && j < |dirs|
    requires dirs[i].0 != dirs[j].0 && dirs[i].0 <= p && dirs[j].0 <= p && HasExt(p)
    ensures Visits(Front(dirs, i), table) && Visits(Front(dirs, j), table)
    ensures Zip(Front(dirs, i), p) != Zip(Front(dirs, j), p)
  {
    FrontVisits(table, dirs, i);
    FrontVisits(table, dirs, j);
    FirstMatchDecides(table, Front(dirs, i), p);
    FirstMatchDecides(table, Front(dirs, j), p);
  }

  /** The stored name does not depend on the iteration order if and only if no directory lies inside another. */
  lemma OrderFreeExactly(table: Table, dirs: seq<(string, string)>)
    requires Coded(table) && Visits(dirs, table)
    ensures OrderFree(table, dirs) <==> Flat(table)
  {
    if Flat(table) {
      forall order, p | Visits(order, table) ensures Zip(order, p) == Zip(dirs, p) {
        ZipAnyOrder(table, order, dirs, p);
      }
    }
    if OrderFree(table, dirs) {
      forall d, e | d in table && e in table && d <= e ensures d == e {
        if d != e {
          NestingShows(table, dirs, d, e);
        }
      }
    }
  }

  lemma NestingShows(table: Table, dirs: seq<(string, string)>, d: string, e: string)
    requires Coded(table) && Visits(dirs, table) && d in table && e in table && d <= e && d != e
    ensures !OrderFree(table, dirs)
  {
    var i :| 0 <= i < |dirs| && dirs[i] == (d, table[d]);
    var j :| 0 <= j < |dirs| && dirs[j] == (e, table[e]);
    var p := e + EXT;
    assert p[|e|..] == EXT && d <= p && e <= p;
    OrderMatters(table, dirs, i, j, p);
    assert Zip(Front(dirs, i), p) == Zip(dirs, p) ==> Zip(Front(dirs, j), p) != Zip(dirs, p);
  }

  /** For the program's table: if and only if the home and scratch directories nest with no other. */
  lemma ProgramOrderFree(home: string, scratch: string, dirs: seq<(string, string)>)
    requires IsDir(home) && IsDir(scratch)
    requires Coded(DirCodes(home, scratch)) && Visits(dirs, DirCodes(home, scratch))
    ensures OrderFree(DirCodes(home, scratch), dirs) <==> Clear(DirCodes(home, scratch), SHARE, LOCAL, home, scratch)
  {
    OrderFreeExactly(DirCodes(home, scratch), dirs);
    ProgramTable(home, scratch);
  }

  ghost predicate StartsWithCode(table: Table, p: string) {
    exists d :: d in table && table[d] <= p
  }

  /** Restoring a stored path gives the original back exactly for paths with one .desktop extension that do
      not begin with a code and are in a listed directory or long enough to slice, whatever order the maps
      are visited in. */
  lemma RoundTripExactly(table: Table, order: seq<(string, string)>, order': seq<(string, string)>, p: string)
    requires Unambiguous(table) && Visits(order, table) && Visits(order', table)
    ensures Unzip(order', Zip(order, p)) == Some(p) <==>
            HasExt(p) && !HasExt(TrimExt(p)) && !StartsWithCode(table, p)
            && (|p| >= 11 || exists d :: d in table && d <= p)
  {
    if HasExt(p) {
      if d :| d in table && d <= p {
        RoundTripInside(table, order, order', p, d);
      } else {
        RoundTripOutside(table, order, order', p);
      }
    } else {
      AddExtEnds(order', Zip(order, p));
    }
  }

  lemma AddExtEnds(order: seq<(string, string)>, path: string)
    ensures Unzip(order, path).Some? ==> HasExt(Unzip(order, path).value)
  {
    if |path| >= 3 {
      var q := Lengthen(order, path);
      assert (q + EXT)[|q|..] == EXT;
    }
  }

  /** Adding the extension undoes trimming it unless the trimmed name still has one. */
  lemma AddTrims(p: string)
    requires HasExt(p)
    ensures AddExt(TrimExt(p)) == p <==> !HasExt(TrimExt(p))
  {
    assert p == TrimExt(p) + EXT;
  }

  lemma CodeRead(table: Table, order: seq<(string, string)>, d: string, rest: string)
    requires Unambiguous(table) && Visits(order, table) && d in table
    ensures |table[d] + rest| >= 3 && Unzip(order, table[d] + rest) == Some(AddExt(d + rest))
  {
    var z := table[d] + rest;
    assert z[..3] == table[d] && z[3..] == rest;
    LengthenFinds(order, table, z);
    assert (d, table[d]) in order;
  }

  /** A path inside a listed directory is restored from its code. */
  lemma InsideRestored(table: Table, order: seq<(string, string)>, order': seq<(string, string)>, p: string, d: string)
    requires Unambiguous(table) && Visits(order, table) && Visits(order', table)
    requires HasExt(p) && d in table && d <= p
    ensures |Zip(order, p)| >= 3 && Unzip(order', Zip(order, p)) == Some(AddExt(TrimExt(p)))
  {
    var code, n := table[d], |p| - |EXT|;
    ShortenHits(order, table, d, p);
    ExtSurvives(d, code, p);
    var z := code + p[|d|..n];
    assert Zip(order, p) == z;
    CodeRead(table, order', d, p[|d|..n]);
    assert d + p[|d|..n] == TrimExt(p);
  }

  lemma RoundTripInside(table: Table, order: seq<(string, string)>, order': seq<(string, string)>, p: string, d: string)
    requires Unambiguous(table) && Visits(order, table) && Visits(order', table)
    requires HasExt(p) && d in table && d <= p
    ensures !StartsWithCode(table, p) && |Zip(order, p)| >= 3
    ensures Unzip(order', Zip(order, p)) == Some(p) <==> !HasExt(TrimExt(p))
  {
    InsideRestored(table, order, order', p, d);
    AddTrims(p);
    if e :| e in table && table[e] <= p {
      CodesHide(table, d, e, p);
    }
  }

  /** A path outside the listed directories that starts with a code comes back inside one. */
  lemma CodeMisread(table: Table, order: seq<(string, string)>, d: string, z: string)
    requires Unambiguous(table) && Visits(order, table) && d in table && |z| >= 3 && table[d] == z[..3]
    ensures Unzip(order, z).Some? && d <= Unzip(order, z).value
  {
    CodeRead(table, order, d, z[3..]);
    assert z == table[d] + z[3..];
    assert d <= AddExt(d + z[3..]);
  }

  lemma NoCodeKept(table: Table, order: seq<(string, string)>, z: string)
    requires Unambiguous(table) && Visits(order, table) && |z| >= 3
    requires forall d :: d in table ==> table[d] != z[..3]
    ensures Unzip(order, z) == Some(AddExt(z))
  {
    forall i | 0 <= i < |order| ensures order[i].1 != z[..3] {
      assert order[i].0 in table;
    }
    LengthenFinds(order, table, z);
  }

  lemma RoundTripOutside(table: Table, order: seq<(string, string)>, order': seq<(string, string)>, p: string)
    requires Unambiguous(table) && Visits(order, table) && Visits(order', table)
    requires HasExt(p) && forall d :: d in table ==> !(d <= p)
    ensures Unzip(order', Zip(order, p)) == Some(p) <==>
            !HasExt(TrimExt(p)) && !StartsWithCode(table, p) && |p| >= 11
  {
    ShortenMisses(order, p);
    AddTrims(p);
    assert Zip(order, p) == TrimExt(p);
    if |p| >= 11 {
      OutsideRestored(table, order', p);
    }
  }

  lemma OutsideRestored(table: Table, order: seq<(string, string)>, p: string)
    requires Unambiguous(table) && Visits(order, table) && HasExt(p) && |p| >= 11
    ensures var q := Unzip(order, TrimExt(p));
            if StartsWithCode(table, p) then q.Some? && exists d :: d in table && d <= q.value
            else q == Some(AddExt(TrimExt(p)))
  {
    var z := TrimExt(p);
    assert z[..3] == p[..3];
    if d :| d in table && table[d] <= p {
      CodeMisread(table, order, d, z);
    } else {
      assert p[..3] <= p;
      NoCodeKept(table, order, z);
    }
  }

  // ---- stored names, spelled out ----

  /** A path in a listed directory is stored as the directory's code and the rest without the extension, and
      restored from that, whatever order the maps are visited in. */
  lemma StoredAs(table: Table, order: seq<(string, string)>, order': seq<(string, string)>, d: string, name: string)
    requires Unambiguous(table) && Visits(order, table) && Visits(order', table) && d in table
    ensures Zip(order, d + name + ".desktop") == table[d] + name
    ensures Unzip(order', table[d] + name) == Some(AddExt(d + name))
  {
    var p := d + name + ".desktop";
    assert p == d + (name + ".desktop");
    assert p[|d| + |name|..] == ".desktop";
    assert p[..|p| - |EXT|] == d + name;
    assert p[|d|..|p| - |EXT|] == name;
    ShortenHits(order, table, d, p);
    ExtSurvives(d, table[d], p);
    CodeRead(table, order', d, name);
  }

  /** A path outside the listed directories only loses its extension. */
  lemma StoredOutside(table: Table, order: seq<(string, string)>, p: string)
    requires Visits(order, table) && forall d :: d in table ==> !(d <= p + ".desktop")
    ensures Zip(order, p + ".desktop") == p
  {
    ShortenMisses(order, p + ".desktop");
    assert (p + ".desktop")[|p|..] == ".desktop";
    assert (p + ".desktop")[..|p|] == p;
  }

  /** The four codes: S for the system's applications, L for the local ones, H for the user's, D for scratch. */
  lemma ProgramCodes(home: string, scratch: string)
    requires home != scratch && home != SHARE && home != LOCAL && scratch != SHARE && scratch != LOCAL
    ensures var table := DirCodes(home, scratch);
            && table.Keys == {"/usr/share/applications/", "/usr/local/share/applications/", home, scratch}
            && table["/usr/share/applications/"] == "/S@" && table["/usr/local/share/applications/"] == "/L@"
            && table[home] == "/H@" && table[scratch] == "/D@"
  {
    ConstantDirs();
    assert SHARE != LOCAL by {
      assert |SHARE| != |LOCAL|;
    }
  }

  /** The loop of zipDesktopPath goes on after a match: visiting a and then b is visiting b with what a left. */
  lemma {:induction false} ShortenGoesOn(a: seq<(string, string)>, b: seq<(string, string)>, p: string)
    ensures Shorten(a + b, p) == Shorten(b, Shorten(a, p))
  {
    if a == [] {
      assert a + b == b;
    } else {
      var (dir, code) := a[0];
      assert (a + b)[0] == a[0] && (a + b)[1..] == a[1..] + b;
      ShortenGoesOn(a[1..], b, if dir <= p then code + p[|dir|..] else p);
    }
  }

  lemma ShortenOnce(dir: string, code: string, rest: string, p: string)
    ensures Shorten([(dir, code)], dir + rest) == code + rest
    ensures !(dir <= p) ==> Shorten([(dir, code)], p) == p
  {
    assert [(dir, code)][1..] == [];
    assert (dir + rest)[|dir|..] == rest;
  }
}
