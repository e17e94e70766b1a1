/**
  The project queries, read over the table as a sequence of projects:
  `ORDER BY createdAt DESC` is a sort, `setMaxResults` a prefix and
  `technologies LIKE '%t%'` a substring filter.
  SQL leaves the order of equal `createdAt` values open; the sort here fixes one.
 */
module ProjectRepository {
  import opened PhpText
  import opened ProjectEntity

  /** `findRecentProjects`' default limit. */
  const DEFAULT_RECENT_LIMIT := 6

  /** Newest first. */
  predicate NewestFirst(s: seq<Project>) {
    forall i, j :: 0 <= i < j < |s| ==> s[i].createdAt >= s[j].createdAt
  }

  /** A project no older than the head of a newest-first sequence can go in front of it. */
  lemma ConsNewestFirst(a: Project, t: seq<Project>)
    requires NewestFirst(t) && (t == [] || a.createdAt >= t[0].createdAt)
    ensures NewestFirst([a] + t)
  {
    var s := [a] + t;
    forall i, j | 0 <= i < j < |s|
      ensures s[i].createdAt >= s[j].createdAt
    {
      if i == 0 {
        assert s[j] == t[j - 1];
        assert t[0].createdAt >= t[j - 1].createdAt;
      }
    }
  }

  /** Puts `p` into a newest-first sequence, before the first project no newer than it. */
  function Insert(p: Project, s: seq<Project>): (r: seq<Project>)
    requires NewestFirst(s)
    ensures NewestFirst(r)
    ensures multiset(r) == multiset(s) + multiset{p}
    ensures |r| == |s| + 1
    ensures forall x :: x in r <==> x == p || x in s
    ensures r[0] == p || (s != [] && r[0] == s[0])
  {
    if s == [] then [p]
    else if p.createdAt >= s[0].createdAt then
      ConsNewestFirst(p, s);
      [p] + s
    else
      var rest := Insert(p, s[1..]);
      assert s == [s[0]] + s[1..];
      ConsNewestFirst(s[0], rest);
      [s[0]] + rest
  }

  /** `ORDER BY createdAt DESC`: the same projects, newest first. */
  function SortByNewest(s: seq<Project>): (r: seq<Project>)
    ensures NewestFirst(r)
    ensures multiset(r) == multiset(s)
    ensures |r| == |s|
    ensures forall x :: x in r <==> x in s
  {
    if s == [] then []
    else
      assert s == [s[0]] + s[1..];
      Insert(s[0], SortByNewest(s[1..]))
  }

  function Min(a: nat, b: nat): nat {
    if a <= b then a else b
  }

  /** `findRecentProjects($limit)`: the `limit` newest projects, newest first. */
  function FindRecentProjects(ps: seq<Project>, limit: nat): (r: seq<Project>)
    ensures |r| == Min(limit, |ps|)
    ensures NewestFirst(r)
    ensures multiset(r) <= multiset(ps)
  {
    var sorted := SortByNewest(ps);
    assert sorted == sorted[..Min(limit, |ps|)] + sorted[Min(limit, |ps|)..];
    sorted[..Min(limit, |ps|)]
  }

  /** In a newest-first sequence, a project outside the first `n` is no newer than the `n`-th. */
  lemma OutsidePrefixIsNoNewer(s: seq<Project>, n: nat, x: Project)
    requires NewestFirst(s) && 0 < n <= |s| && x in s && x !in s[..n]
    ensures x.createdAt <= s[n - 1].createdAt
  {
    var k :| 0 <= k < |s| && s[k] == x;
    assert n <= k;
  }

  /** No project left out of the recent list is newer than the last one returned. */
  lemma LeftOutAreNoNewer(ps: seq<Project>, limit: nat)
    requires FindRecentProjects(ps, limit) != []
    ensures var r := FindRecentProjects(ps, limit);
            forall x :: x in ps && x !in r ==> x.createdAt <= r[|r| - 1].createdAt
  {
    var sorted := SortByNewest(ps);
    var n := Min(limit, |ps|);
    var r := FindRecentProjects(ps, limit);
    assert r == sorted[..n];
    forall x | x in ps && x !in r
      ensures x.createdAt <= r[|r| - 1].createdAt
    {
      OutsidePrefixIsNoNewer(sorted, n, x);
    }
  }

  /** With fewer projects than the limit, every project is returned. */
  lemma RecentReturnsAllWhenFew(ps: seq<Project>, limit: nat)
    requires |ps| <= limit
    ensures multiset(FindRecentProjects(ps, limit)) == multiset(ps)
  {
    assert SortByNewest(ps)[..|ps|] == SortByNewest(ps);
  }

  /** `technologies LIKE '%tech%'`, with no wildcard in `tech`: a non-null column containing it. */
  predicate UsesTechnology(p: Project, tech: string) {
    p.technologies.Some? && Contains(p.technologies.value, tech)
  }

  /** The projects that use `tech`, in table order. */
  function WithTechnology(ps: seq<Project>, tech: string): (r: seq<Project>)
    ensures forall x :: multiset(r)[x] == if UsesTechnology(x, tech) then multiset(ps)[x] else 0
  {
    if ps == [] then []
    else
      assert ps == [ps[0]] + ps[1..];
      (if UsesTechnology(ps[0], tech) then [ps[0]] else []) + WithTechnology(ps[1..], tech)
  }

  /** `findByTechnology($technology)`: the projects whose technologies contain it, newest first. */
  function FindByTechnology(ps: seq<Project>, tech: string): (r: seq<Project>)
    ensures NewestFirst(r)
    ensures forall x :: multiset(r)[x] == if UsesTechnology(x, tech) then multiset(ps)[x] else 0
  {
    SortByNewest(WithTechnology(ps, tech))
  }

  /** A project is found exactly when it is stored and its technologies contain the argument somewhere. */
  lemma FindsExactlyTheMatches(ps: seq<Project>, tech: string, p: Project)
    ensures p in FindByTechnology(ps, tech) <==>
              p in ps && p.technologies.Some? && exists i :: OccursAt(p.technologies.value, tech, i)
  {
    var r := FindByTechnology(ps, tech);
    assert p in r <==> multiset(r)[p] > 0;
    assert p in ps <==> multiset(ps)[p] > 0;
    if p.technologies.Some? {
      ContainsIff(p.technologies.value, tech);
    }
  }

  /** An empty argument (`LIKE '%%'`) finds every project whose technologies are not null. */
  lemma EmptyTechnologyFindsAllNonNull(ps: seq<Project>, p: Project)
    ensures p in FindByTechnology(ps, "") <==> p in ps && p.technologies.Some?
  {
    var r := FindByTechnology(ps, "");
    assert p in r <==> multiset(r)[p] > 0;
    assert p in ps <==> multiset(ps)[p] > 0;
    if p.technologies.Some? {
      assert IsPrefix("", p.technologies.value);
    }
  }
}
