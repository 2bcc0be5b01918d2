/**
 * The folder tree as the components read it: following `parentId` from a
 * folder through `folders.find`, until a folder hangs directly under
 * "All Bookmarks" or its parent is missing. Nothing in the store rules out a
 * cycle, so the walk is given fuel and acyclicity is a predicate.
 */
module Hierarchy {
  import opened Wrappers
  import opened Model
  import opened BookmarkStore

  /** The folder the walk visits after `f`: the first folder named by its `parentId`, unless `f` is top-level. */
  function Next(fs: seq<Folder>, f: Folder): (r: Option<Folder>)
    ensures r.Some? ==> !IsTop(f) && r.value in fs && r.value.id == f.parentId.value
    ensures r.Some? ==> Find(fs, r.value.id) == r
  {
    if IsTop(f) then None else Find(fs, f.parentId.value)
  }

  /** The walk from `f` stops within `n` further lookups. */
  predicate Settles(fs: seq<Folder>, f: Folder, n: nat)
    decreases n
  {
    Next(fs, f).None? || (n > 0 && Settles(fs, Next(fs, f).value, n - 1))
  }

  /** The walk from `f` stops eventually. */
  ghost predicate Resolves(fs: seq<Folder>, f: Folder) {
    exists n: nat :: Settles(fs, f, n)
  }

  /** No walk runs forever: the `parentId` links contain no cycle. */
  ghost predicate Acyclic(fs: seq<Folder>) {
    forall i | 0 <= i < |fs| :: Resolves(fs, fs[i])
  }

  predicate EndsWith(s: string, t: string) {
    |t| <= |s| && s[|s| - |t|..] == t
  }

  /**
   * `getFolderPath` of the two dialogs: the ancestors' names and the folder's
   * own, joined by " / ". `None` when the fuel runs out before the walk stops,
   * which is where the code would recurse without end.
   */
  function FolderPath(fs: seq<Folder>, f: Folder, fuel: nat): (r: Option<string>)
    ensures r.Some? <==> Settles(fs, f, fuel)
    ensures r.Some? ==> EndsWith(r.value, f.name)
    ensures IsTop(f) ==> r == Some(f.name)
    ensures !IsTop(f) && Find(fs, f.parentId.value).None? ==> r == Some(f.name)
    decreases fuel
  {
    match Next(fs, f)
    case None => Some(f.name)
    case Some(parent) =>
      if fuel == 0 then None
      else
        match FolderPath(fs, parent, fuel - 1)
        case None => None
        case Some(above) => Some(above + " / " + f.name)
  }

  /** A found parent contributes its own path, then " / ", then the folder's name. */
  lemma {:induction false} FolderPathThroughParent(fs: seq<Folder>, f: Folder, fuel: nat)
    requires Next(fs, f).Some? && FolderPath(fs, Next(fs, f).value, fuel).Some?
    ensures FolderPath(fs, f, fuel + 1) == Some(FolderPath(fs, Next(fs, f).value, fuel).value + " / " + f.name)
  {
  }

  /** Extra fuel changes nothing once the walk stops: fuel only bounds the recursion. */
  lemma {:induction false} FolderPathFuel(fs: seq<Folder>, f: Folder, n: nat, m: nat)
    requires Settles(fs, f, n) && n <= m
    ensures FolderPath(fs, f, m) == FolderPath(fs, f, n)
    decreases n
  {
    if Next(fs, f).Some? {
      var p := Next(fs, f).value;
      assert n > 0 && Settles(fs, p, n - 1);
      FolderPathFuel(fs, p, n - 1, m - 1);
      assert FolderPath(fs, p, m - 1) == FolderPath(fs, p, n - 1);
    }
  }

  /** The `k`-th folder on the walk from `f` (`f` itself for `k == 0`). */
  function Walk(fs: seq<Folder>, f: Folder, k: nat): Option<Folder>
    decreases k
  {
    if k == 0 then Some(f)
    else
      match Next(fs, f)
      case None => None
      case Some(p) => Walk(fs, p, k - 1)
  }

  /** Beyond the start, the walk visits only folders that `find` returns for their own id. */
  lemma {:induction false} WalkFound(fs: seq<Folder>, f: Folder, k: nat)
    requires k > 0 && Walk(fs, f, k).Some?
    ensures Walk(fs, f, k).value in fs
    ensures Find(fs, Walk(fs, f, k).value.id) == Walk(fs, f, k)
    decreases k
  {
    if k > 1 {
      WalkFound(fs, Next(fs, f).value, k - 1);
    }
  }

  lemma {:induction false} WalkCompose(fs: seq<Folder>, f: Folder, a: nat, b: nat)
    requires Walk(fs, f, a).Some?
    ensures Walk(fs, f, a + b) == Walk(fs, Walk(fs, f, a).value, b)
    decreases a
  {
    if a > 0 {
      WalkCompose(fs, Next(fs, f).value, a - 1, b);
    }
  }

  /** A walk that settles within `n` lookups has at most `n` steps, and from step `k` it settles within `n - k`. */
  lemma {:induction false} WalkSettles(fs: seq<Folder>, f: Folder, k: nat, n: nat)
    requires Walk(fs, f, k).Some? && Settles(fs, f, n)
    ensures k <= n && Settles(fs, Walk(fs, f, k).value, n - k)
    decreases k
  {
    if k > 0 {
      var p := Next(fs, f).value;
      assert Walk(fs, f, k) == Walk(fs, p, k - 1);
      assert n > 0 && Settles(fs, p, n - 1);
      WalkSettles(fs, p, k - 1, n - 1);
    }
  }

  /** A folder the walk returns to never settles. */
  lemma {:induction false} CycleNeverSettles(fs: seq<Folder>, f: Folder, k: nat, n: nat)
    requires k > 0 && Walk(fs, f, k) == Some(f)
    ensures !Settles(fs, f, n)
    decreases n
  {
    if Settles(fs, f, n) {
      WalkSettles(fs, f, k, n);
      CycleNeverSettles(fs, f, k, n - k);
    }
  }

  /** A walk that reaches step `k` passes every earlier step. */
  lemma {:induction false} WalkPrefix(fs: seq<Folder>, f: Folder, j: nat, k: nat)
    requires j <= k && Walk(fs, f, k).Some?
    ensures Walk(fs, f, j).Some?
    decreases j
  {
    if j > 0 {
      WalkPrefix(fs, Next(fs, f).value, j - 1, k - 1);
    }
  }

  /** A walk that does not settle within `n` lookups has at least `n + 1` further steps. */
  lemma {:induction false} UnsettledWalks(fs: seq<Folder>, f: Folder, n: nat, k: nat)
    requires !Settles(fs, f, n) && k <= n + 1
    ensures Walk(fs, f, k).Some?
    decreases k
  {
    if k > 0 {
      var p := Next(fs, f).value;
      if k > 1 {
        UnsettledWalks(fs, p, n - 1, k - 1);
      }
    }
  }

  function IdSet(fs: seq<Folder>): set<Id> {
    set i | 0 <= i < |fs| :: fs[i].id
  }

  lemma {:induction false} IdSetSize(fs: seq<Folder>)
    ensures |IdSet(fs)| <= |fs|
  {
    if |fs| > 0 {
      IdSetSize(fs[1..]);
      assert IdSet(fs) == {fs[0].id} + IdSet(fs[1..]) by {
        forall x | x in IdSet(fs)
          ensures x in {fs[0].id} + IdSet(fs[1..])
        {
          var i :| 0 <= i < |fs| && fs[i].id == x;
          if i > 0 {
            assert fs[1..][i - 1].id == x;
          }
        }
      }
    }
  }

  lemma {:induction false} DistinctCard<T>(s: seq<T>)
    requires forall a, b | 0 <= a < b < |s| :: s[a] != s[b]
    ensures |set x | x in s| == |s|
  {
    if |s| > 0 {
      DistinctCard(s[1..]);
      assert (set x | x in s) == {s[0]} + (set x | x in s[1..]);
      assert s[0] !in (set x | x in s[1..]);
    }
  }

  lemma SubsetSize<T>(a: set<T>, b: set<T>)
    requires a <= b
    ensures |a| <= |b|
  {
    assert b == a + (b - a);
  }

  /** More positions than values: two positions hold the same value. */
  lemma Pigeonhole<T>(s: seq<T>, values: set<T>)
    requires forall i | 0 <= i < |s| :: s[i] in values
    requires |s| > |values|
    ensures exists a, b | 0 <= a < b < |s| :: s[a] == s[b]
  {
    if forall a, b | 0 <= a < b < |s| :: s[a] != s[b] {
      DistinctCard(s);
      SubsetSize((set x | x in s), values);
      assert false;
    }
  }

  /** A walk with more steps than folder records visits some folder twice. */
  lemma LongWalkRepeats(fs: seq<Folder>, f: Folder)
    requires forall k | 1 <= k <= |fs| + 1 :: Walk(fs, f, k).Some?
    ensures exists a, b | 1 <= a < b <= |fs| + 1 :: Walk(fs, f, a) == Walk(fs, f, b)
  {
    var n := |fs|;
    var ws := seq(n + 1, i requires 0 <= i < n + 1 => Walk(fs, f, i + 1).value);
    forall i | 0 <= i < |ws|
      ensures ws[i] in fs
    {
      WalkFound(fs, f, i + 1);
    }
    var a, b := RepeatedId(fs, ws);
    WalkFound(fs, f, a + 1);
    WalkFound(fs, f, b + 1);
    assert Walk(fs, f, a + 1) == Find(fs, ws[a].id) == Find(fs, ws[b].id) == Walk(fs, f, b + 1);
  }

  /** More folders drawn from `fs` than `fs` has records: two of them share an id. */
  lemma RepeatedId(fs: seq<Folder>, ws: seq<Folder>) returns (a: nat, b: nat)
    requires forall i | 0 <= i < |ws| :: ws[i] in fs
    requires |ws| > |fs|
    ensures a < b < |ws| && ws[a].id == ws[b].id
  {
    var ids := seq(|ws|, i requires 0 <= i < |ws| => ws[i].id);
    forall i | 0 <= i < |ids|
      ensures ids[i] in IdSet(fs)
    {
      var j :| 0 <= j < |fs| && fs[j] == ws[i];
    }
    IdSetSize(fs);
    Pigeonhole(ids, IdSet(fs));
    a, b :| 0 <= a < b < |ids| && ids[a] == ids[b];
  }

  /**
   * In a store without cycles every walk stops within as many lookups as there
   * are folder records, so a depth-bounded walk decides the question.
   */
  lemma AcyclicSettlesWithinSize(fs: seq<Folder>, f: Folder)
    requires Acyclic(fs)
    ensures Settles(fs, f, |fs|)
  {
    var n := |fs|;
    if !Settles(fs, f, n) {
      forall k | 1 <= k <= n + 1
        ensures Walk(fs, f, k).Some?
      {
        UnsettledWalks(fs, f, n, k);
      }
      LongWalkRepeats(fs, f);
      var a, b :| 1 <= a < b <= n + 1 && Walk(fs, f, a) == Walk(fs, f, b);
      var c := Walk(fs, f, a).value;
      WalkCompose(fs, f, a, b - a);
      assert Walk(fs, c, b - a) == Walk(fs, f, b) == Some(c);
      WalkFound(fs, f, a);
      var j :| 0 <= j < |fs| && fs[j] == c;
      assert Resolves(fs, fs[j]);
      var m: nat :| Settles(fs, c, m);
      CycleNeverSettles(fs, c, b - a, m);
    }
  }

  /** In a store without cycles `getFolderPath` returns for every folder. */
  lemma AcyclicPathsTerminate(fs: seq<Folder>, f: Folder)
    requires Acyclic(fs)
    ensures FolderPath(fs, f, |fs|).Some?
  {
    AcyclicSettlesWithinSize(fs, f);
  }

  /** The development data has no cycle. */
  lemma InitialStoreAcyclic(now: Millis)
    ensures Acyclic(InitialFolders(now))
  {
    var fs := InitialFolders(now);
    assert Settles(fs, fs[0], 0);
    assert Settles(fs, fs[1], 0);
    assert Settles(fs, fs[2], 0);
    assert Next(fs, fs[3]) == Some(fs[1]);
    assert Settles(fs, fs[3], 1);
    assert Next(fs, fs[4]) == Some(fs[1]);
    assert Settles(fs, fs[4], 1);
  }

  /** `updateFolder` accepts a folder as its own parent, which closes a cycle. */
  lemma UpdateFolderSelfParent(fs: seq<Folder>, id: Id)
    requires FolderExists(fs, id) && id != "" && id != ROOT
    ensures !Acyclic(UpdateFolders(fs, id, NoFolderChange.(parentId := Some(Some(id)))))
  {
    var u := NoFolderChange.(parentId := Some(Some(id)));
    var gs := UpdateFolders(fs, id, u);
    var k :| 0 <= k < |fs| && fs[k].id == id;
    assert gs[k].id == id && gs[k].parentId == Some(id);
    var c := Find(gs, id).value;
    assert c.parentId == Some(id);
    assert Next(gs, c) == Some(c);
    assert Walk(gs, c, 1) == Some(c);
    var j :| 0 <= j < |gs| && gs[j] == c;
    if Acyclic(gs) {
      assert Resolves(gs, gs[j]);
      var m: nat :| Settles(gs, c, m);
      CycleNeverSettles(gs, c, 1, m);
    }
  }
}
