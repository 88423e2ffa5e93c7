/** WSLoop (appearance/wallpaper-slideshow.go): random wallpapers without repetition. The random index
    is left open, so everything below holds whatever is drawn. */
module WallpaperLoop {

  function Files(list: seq<string>): set<string> {
    set f | f in list
  }

  lemma FilesConcat(a: seq<string>, b: seq<string>)
    ensures Files(a + b) == Files(a) + Files(b)
  {
  }

  /** One result of GetNext: an unshown file while there is one, otherwise the start of a new round. */
  ghost predicate Picks(list: seq<string>, showed: set<string>, next: string, showed': set<string>) {
    var pool := Files(list) - showed;
    if list == [] then next == "" && showed' == showed
    else if pool != {} then next in pool && showed' == showed + {next}
    else next in Files(list) && showed' == {next}
  }

  class WSLoop {
    var all: seq<string>
    var showed: set<string>

    constructor ()
      ensures showed == {} && all == []
    {
      all, showed := [], {};
    }

    /** getNotShowed; `list` is what is on disk, which is read anew each time. */
    method GetNotShowed(list: seq<string>) returns (result: seq<string>)
      modifies this`all
      ensures all == list
      ensures Files(result) == Files(list) - showed
    {
      all := list;
      result := [];
      var i := 0;
      while i < |all|
        invariant 0 <= i <= |all| && all == list
        invariant Files(result) == Files(all[..i]) - showed
      {
        assert all[..i + 1] == all[..i] + [all[i]];
        FilesConcat(all[..i], [all[i]]);
        FilesConcat(result, [all[i]]);
        if all[i] !in showed {
          result := result + [all[i]];
        }
        i := i + 1;
      }
      assert all[..i] == list;
    }

    /** getNext. */
    method DrawNext(list: seq<string>) returns (next: string)
      modifies this
      ensures all == list
      ensures var pool := Files(list) - old(showed);
              if pool == {} then next == "" && showed == old(showed)
              else next in pool && showed == old(showed) + {next}
    {
      var notShowed := GetNotShowed(list);
      if |notShowed| == 0 {
        return "";
      }
      assert notShowed[0] in Files(notShowed);
      var idx: nat :| idx < |notShowed|;
      next := notShowed[idx];
      assert next in Files(notShowed);
      showed := showed + {next};
    }

    method Reset()
      modifies this`showed
      ensures showed == {}
    {
      while showed != {}
        decreases |showed|
      {
        var key :| key in showed;
        showed := showed - {key};
      }
    }

    method AddToShowed(file: string)
      modifies this`showed
      ensures showed == old(showed) + {file}
    {
      showed := showed + {file};
    }

    /** GetNext. An empty file name would be mistaken for "nothing left". */
    method GetNext(list: seq<string>) returns (next: string)
      modifies this
      ensures "" !in list ==> Picks(list, old(showed), next, showed)
      ensures "" !in list ==> (next == "" <==> list == [])
    {
      next := DrawNext(list);
      if next != "" {
        return;
      }
      if |all| > 0 {
        assert list[0] in Files(list);
        Reset();
        assert Files(list) - showed == Files(list);
        next := DrawNext(list);
      }
    }
  }

  // ---- whole runs ----

  /** Results r of consecutive GetNext calls on one list; s[i] is what was marked before call i. */
  ghost predicate IsRun(list: seq<string>, s: seq<set<string>>, r: seq<string>) {
    && |s| == |r| + 1
    && forall i {:trigger r[i]} :: 0 <= i < |r| ==> Picks(list, s[i], r[i], s[i + 1])
  }

  /** Every element of x exactly once. */
  ghost predicate Enumerates(part: seq<string>, x: set<string>) {
    |part| == |x| && Files(part) == x
  }

  /** The results from k on are one complete enumeration of x. */
  ghost predicate IsRound(r: seq<string>, k: nat, x: set<string>) {
    k + |x| <= |r| && Enumerates(r[k..k + |x|], x)
  }

  lemma EnumeratesCons(f: string, part: seq<string>, x: set<string>)
    requires f in x && Enumerates(part, x - {f})
    ensures Enumerates([f] + part, x)
  {
    FilesConcat([f], part);
  }

  /** From any point on, the files not shown yet come next, each once. */
  lemma {:induction false} RestOfRound(
    list: seq<string>, s: seq<set<string>>, r: seq<string>, i: nat, pool: set<string>)
    requires IsRun(list, s, r) && list != [] && i + |pool| <= |r|
    requires pool == Files(list) - s[i]
    ensures IsRound(r, i, pool) && Files(list) <= s[i + |pool|]
    decreases |pool|
  {
    if pool == {} {
      forall f | f in Files(list) ensures f in s[i] {
        assert f !in pool;
      }
    } else {
      assert Picks(list, s[i], r[i], s[i + 1]);
      RestOfRound(list, s, r, i + 1, pool - {r[i]});
      assert r[i..i + |pool|] == [r[i]] + r[i + 1..i + |pool|];
      EnumeratesCons(r[i], r[i + 1..i + |pool|], pool);
    }
  }

  /** Once everything has been shown, the next |Files| results are one complete round, and everything is shown again. */
  lemma FullRound(list: seq<string>, s: seq<set<string>>, r: seq<string>, i: nat, all: set<string>)
    requires IsRun(list, s, r) && list != [] && all == Files(list)
    requires i + |all| <= |r| && all <= s[i]
    ensures IsRound(r, i, all) && all <= s[i + |all|]
  {
    assert list[0] in all;
    NewRound(list, s, r, i, all);
    RestOfRound(list, s, r, i + 1, all - {r[i]});
    assert r[i..i + |all|] == [r[i]] + r[i + 1..i + |all|];
    EnumeratesCons(r[i], r[i + 1..i + |all|], all);
  }

  lemma NewRound(list: seq<string>, s: seq<set<string>>, r: seq<string>, i: nat, all: set<string>)
    requires IsRun(list, s, r) && list != [] && all == Files(list) && i < |r| && all <= s[i]
    ensures r[i] in all && all - {r[i]} == Files(list) - s[i + 1]
  {
    assert all - s[i] == {};
    assert Picks(list, s[i], r[i], s[i + 1]);
  }

  /** Where a round starts: after the files left over at the beginning and the rounds before it. */
  function RoundStart(first: nat, n: nat, round: nat): nat {
    if round == 0 then first else RoundStart(first, n, round - 1) + n
  }

  lemma {:induction false} RoundStartGrows(first: nat, n: nat, round: nat)
    ensures first <= RoundStart(first, n, round)
  {
    if round > 0 {
      RoundStartGrows(first, n, round - 1);
    }
  }

  /** Once everything has been shown, complete rounds follow. */
  lemma {:induction false} CompleteRounds(
    list: seq<string>, s: seq<set<string>>, r: seq<string>, all: set<string>, first: nat, round: nat)
    requires IsRun(list, s, r) && list != [] && all == Files(list)
    requires first <= |r| && all <= s[first]
    requires RoundStart(first, |all|, round) + |all| <= |r|
    ensures var k := RoundStart(first, |all|, round);
            IsRound(r, k, all) && all <= s[k + |all|]
  {
    if round > 0 {
      CompleteRounds(list, s, r, all, first, round - 1);
    }
    FullRound(list, s, r, RoundStart(first, |all|, round), all);
  }

  /** Whatever was marked at the start and whatever the random choices: first the unmarked files, then
      complete rounds, each a permutation of the files. */
  lemma RoundsArePermutations(
    list: seq<string>, s: seq<set<string>>, r: seq<string>, left: set<string>, round: nat)
    requires IsRun(list, s, r) && list != [] && left == Files(list) - s[0]
    requires RoundStart(|left|, |Files(list)|, round) + |Files(list)| <= |r|
    ensures IsRound(r, 0, left)
    ensures IsRound(r, RoundStart(|left|, |Files(list)|, round), Files(list))
  {
    RoundStartGrows(|left|, |Files(list)|, round);
    RestOfRound(list, s, r, 0, left);
    CompleteRounds(list, s, r, Files(list), |left|, round);
  }
}
