/** Which conflict copies the server deletes after it wrote a new one: those of the same file
    that are too old or too many, and once in a while every old one. */
module ConflictCopies {
  import opened Wrappers
  import opened Paths
  import opened Disk
  import opened Sorting

  /** Limits that are not positive are off. */
  datatype CopyPolicy = CopyPolicy(ttl: int, maxCopies: int, interval: int)

  /** The files a directory listing finds for p. */
  function Copies(d: Tree, p: Path): set<Path>
  {
    set q | q in d && d[q].File? && CopyOf(p, q)
  }

  function Stamp(d: Tree, q: Path): int
  {
    if q in d && d[q].File? then d[q].mtime else 0
  }

  /** Newest first; of two written at the same time the greater name comes first. */
  predicate Ahead(d: Tree, a: Path, b: Path)
  {
    Stamp(d, a) > Stamp(d, b) || (Stamp(d, a) == Stamp(d, b) && Before(b, a))
  }

  function AheadOf(d: Tree, p: Path, q: Path): set<Path>
  {
    set a | a in Copies(d, p) && Ahead(d, a, q)
  }

  predicate TooOld(d: Tree, q: Path, policy: CopyPolicy, now: int)
  {
    policy.ttl > 0 && now - Stamp(d, q) > policy.ttl
  }

  /** The copies of p that go: too old, or not among the newest ones that may stay. */
  function Retired(d: Tree, p: Path, policy: CopyPolicy, now: int): set<Path>
  {
    set q | q in Copies(d, p)
      && (TooOld(d, q, policy, now) || (policy.maxCopies > 0 && |AheadOf(d, p, q)| >= policy.maxCopies))
  }

  /** The conflict files anywhere that a walk over the tree finds too old. */
  function Expired(d: Tree, policy: CopyPolicy, now: int): set<Path>
  {
    set q | q in d && d[q].File? && Reserved(q) && Walked(q) && TooOld(d, q, policy, now)
  }

  predicate SweepDue(last: Option<int>, policy: CopyPolicy, now: int)
  {
    policy.ttl > 0 && policy.interval > 0 && (last.None? || now - last.value >= policy.interval)
  }

  /** Files go only if their name carries the mark. */
  function Pruned(d: Tree, gone: set<Path>): Tree
  {
    map q | q in d && !(q in gone && Reserved(q) && d[q].File?) :: d[q]
  }

  /** What is on disk after the cleanup that follows a new copy of p, and when the whole tree
      was last swept; files that the system does not let go stay. */
  function Cleaned(d: Tree, last: Option<int>, p: Path, policy: CopyPolicy, now: int, stuck: set<Path>)
    : (Tree, Option<int>)
  {
    var d1 := Pruned(d, Retired(d, p, policy, now) - stuck);
    if SweepDue(last, policy, now) then (Pruned(d1, Expired(d1, policy, now) - stuck), Some(now))
    else (d1, last)
  }

  lemma PrunedTree(d: Tree, gone: set<Path>)
    requires WellFormed(d)
    ensures WellFormed(Pruned(d, gone))
  { }

  /** Cleanup deletes marked files and nothing else. */
  lemma CleanedTree(d: Tree, last: Option<int>, p: Path, policy: CopyPolicy, now: int, stuck: set<Path>)
    requires WellFormed(d)
    ensures var d' := Cleaned(d, last, p, policy, now, stuck).0;
      && WellFormed(d')
      && d'.Keys <= d.Keys && (forall q :: q in d' ==> d'[q] == d[q])
      && forall q :: q in d && (!Reserved(q) || d[q].Dir?) ==> q in d'
  {
    PrunedTree(d, Retired(d, p, policy, now) - stuck);
    var d1 := Pruned(d, Retired(d, p, policy, now) - stuck);
    PrunedTree(d1, Expired(d1, policy, now) - stuck);
  }

  // ---------- what the limits mean ----------

  lemma {:induction false} AheadIsTotal(d: Tree, a: Path, b: Path)
    requires a != b
    ensures Ahead(d, a, b) <==> !Ahead(d, b, a)
  {
    BeforeTrichotomy(a, b);
  }

  lemma AheadIsTransitive(d: Tree, a: Path, b: Path, c: Path)
    requires Ahead(d, a, b) && Ahead(d, b, c)
    ensures Ahead(d, a, c)
  {
    if Stamp(d, a) == Stamp(d, b) == Stamp(d, c) { BeforeTransitive(c, b, a); }
  }

  /** Among some paths one comes after all others. */
  lemma {:induction false} LastOne(d: Tree, s: set<Path>) returns (x: Path)
    requires s != {}
    ensures x in s && forall y :: y in s && y != x ==> Ahead(d, y, x)
    decreases |s|
  {
    x :| x in s;
    if s != {x} {
      var z := LastOne(d, s - {x});
      AheadIsTotal(d, x, z);
      if !Ahead(d, x, z) {
        forall y | y in s && y != x ensures Ahead(d, y, x) {
          if y != z { AheadIsTransitive(d, y, z, x); }
        }
      } else {
        x := z;
      }
    }
  }

  /** When every removal works, at most the allowed number of copies of a file is left, and
      none that is too old. */
  lemma AtMostTheLimit(d: Tree, p: Path, policy: CopyPolicy, now: int)
    ensures var left := Copies(Pruned(d, Retired(d, p, policy, now)), p);
      && (policy.maxCopies > 0 ==> |left| <= policy.maxCopies)
      && (forall q :: q in left ==> !TooOld(d, q, policy, now))
  {
    var d' := Pruned(d, Retired(d, p, policy, now));
    var left := Copies(d', p);
    forall q | q in left ensures q in Copies(d, p) && q !in Retired(d, p, policy, now) {
      CopyIsReserved(p, q);
    }
    if policy.maxCopies > 0 && left != {} {
      var x := LastOne(d, left);
      assert left - {x} <= AheadOf(d, p, x);
      SubsetSize(left - {x}, AheadOf(d, p, x));
    }
  }

  /** A copy stays exactly if it is young enough and among the newest ones allowed, or if the
      system does not let it go. */
  lemma WhichCopiesStay(d: Tree, p: Path, policy: CopyPolicy, now: int, stuck: set<Path>, q: Path)
    requires q in Copies(d, p)
    ensures q in Pruned(d, Retired(d, p, policy, now) - stuck) <==>
      q in stuck || (!TooOld(d, q, policy, now) && (policy.maxCopies <= 0 || |AheadOf(d, p, q)| < policy.maxCopies))
  {
    CopyIsReserved(p, q);
  }

  /** A whole cleanup, sweep included, leaves a copy exactly in these cases. */
  lemma CleanedCopy(d: Tree, last: Option<int>, p: Path, policy: CopyPolicy, now: int, stuck: set<Path>, q: Path)
    requires q in Copies(d, p)
    ensures var d' := Cleaned(d, last, p, policy, now, stuck).0;
      && (q in d' <==>
        q in stuck || (!TooOld(d, q, policy, now) && (policy.maxCopies <= 0 || |AheadOf(d, p, q)| < policy.maxCopies)))
      && (q in d' ==> d'[q] == d[q])
  {
    WhichCopiesStay(d, p, policy, now, stuck, q);
    var d1 := Pruned(d, Retired(d, p, policy, now) - stuck);
    assert q in d1 ==> Stamp(d1, q) == Stamp(d, q);
  }

  /** Cleaning up after p deletes copies of p and, in a sweep, files that are too old; copies of
      another file with an unmarked name are not touched for being too many. */
  lemma OtherCopiesStay(d: Tree, last: Option<int>, p: Path, policy: CopyPolicy, now: int, stuck: set<Path>, q: Path)
    requires q in d && q !in Cleaned(d, last, p, policy, now, stuck).0
    ensures CopyOf(p, q) || (SweepDue(last, policy, now) && Reserved(q) && TooOld(d, q, policy, now))
    ensures forall p2 :: q in Copies(d, p2) && !Reserved(p) && !Reserved(p2) && p2 != p ==> TooOld(d, q, policy, now)
  {
    var d1 := Pruned(d, Retired(d, p, policy, now) - stuck);
    assert q in d1 ==> Stamp(d1, q) == Stamp(d, q);
    forall p2 | q in Copies(d, p2) && !Reserved(p) && !Reserved(p2) && p2 != p ensures TooOld(d, q, policy, now) {
      if CopyOf(p, q) { CopiesTellTheirFile(p, p2, q); }
    }
  }

  /** A cleanup of p, sweep included, deletes exactly: copies of p that are too old or not among
      the newest ones allowed, and, when a sweep is due, every marked file within the walk's reach
      that is too old; nothing that the system holds on to. A sweep is due once an interval. */
  lemma CleanupDeletesExactly(
      d: Tree, last: Option<int>, p: Path, policy: CopyPolicy, now: int, stuck: set<Path>, q: Path)
    requires q in d
    ensures var (d', last') := Cleaned(d, last, p, policy, now, stuck);
      var due := policy.ttl > 0 && policy.interval > 0 && (last.None? || now - last.value >= policy.interval);
      var tooOld := policy.ttl > 0 && d[q].File? && now - d[q].mtime > policy.ttl;
      && (q !in d' <==>
            && d[q].File? && q !in stuck
            && ((CopyOf(p, q) && (tooOld || (policy.maxCopies > 0 && |AheadOf(d, p, q)| >= policy.maxCopies)))
                || (due && Reserved(q) && Walked(q) && tooOld)))
      && (q in d' ==> d'[q] == d[q])
      && last' == (if due then Some(now) else last)
  {
    if CopyOf(p, q) { CopyIsReserved(p, q); }
    var d1 := Pruned(d, Retired(d, p, policy, now) - stuck);
    assert q in d1 ==> d1[q] == d[q];
  }

  /** A copy written later is ahead; of two written at the same time the greater name is. */
  lemma LaterIsAhead(d: Tree, a: Path, b: Path)
    requires a in d && d[a].File? && b in d && d[b].File?
    ensures Ahead(d, a, b) <==> d[a].mtime > d[b].mtime || (d[a].mtime == d[b].mtime && Before(b, a))
  { }

  // ---------- the sorted listing ----------

  function NewestFirst(d: Tree): (Path, Path) -> bool
  {
    (a: Path, b: Path) => a == b || Ahead(d, a, b)
  }

  lemma NewestFirstIsTotal(d: Tree)
    ensures TotalPreorder(NewestFirst(d))
  {
    forall a, b ensures NewestFirst(d)(a, b) || NewestFirst(d)(b, a) {
      if a != b { AheadIsTotal(d, a, b); }
    }
    forall a, b, c | NewestFirst(d)(a, b) && NewestFirst(d)(b, c) ensures NewestFirst(d)(a, c) {
      if a != b && b != c { AheadIsTransitive(d, a, b, c); }
    }
  }

  /** All copies of p, each once, with exactly the newer ones before each. */
  ghost predicate Ranked(d: Tree, p: Path, s: seq<Path>)
  {
    && Distinct(s) && SetOf(s) == Copies(d, p)
    && forall i, j :: 0 <= i < j < |s| ==> Ahead(d, s[i], s[j])
  }

  lemma SortedIsRanked(d: Tree, p: Path, found: seq<Path>, s: seq<Path>)
    requires Distinct(found) && SetOf(found) == Copies(d, p)
    requires multiset(found) == multiset(s) && Sorted(s, NewestFirst(d))
    ensures Ranked(d, p, s)
  {
    DistinctPermuted(found, s);
    forall q ensures q in found <==> q in s {
      assert q in multiset(found) <==> q in multiset(s);
    }
    forall i, j | 0 <= i < j < |s| ensures Ahead(d, s[i], s[j]) {
      assert NewestFirst(d)(s[i], s[j]);
    }
  }

  /** The place of a copy in the listing is the number of copies ahead of it. */
  lemma RankIsPlace(d: Tree, p: Path, s: seq<Path>, i: nat)
    requires Ranked(d, p, s) && i < |s|
    ensures AheadOf(d, p, s[i]) == SetOf(s[..i]) && |AheadOf(d, p, s[i])| == i
  {
    forall a | a in AheadOf(d, p, s[i]) ensures a in s[..i] {
      assert a in SetOf(s);
      var j :| 0 <= j < |s| && s[j] == a;
      if i <= j { AheadIsIrreflexive(d, a); if i < j { AheadIsTotal(d, s[i], s[j]); } }
      assert s[..i][j] == a;
    }
    forall a | a in s[..i] ensures a in AheadOf(d, p, s[i]) {
      var j :| 0 <= j < i && s[j] == a;
      assert a in SetOf(s);
    }
    assert Distinct(s[..i]);
    DistinctSize(s[..i]);
  }

  lemma AheadIsIrreflexive(d: Tree, a: Path)
    ensures !Ahead(d, a, a)
  {
    BeforeTrichotomy(a, a);
  }

  lemma OneMoreCandidate(d: Tree, p: Path, s: seq<Path>, i: nat)
    requires Ranked(d, p, s) && i < |s|
    ensures s[i] in Copies(d, p) && s[i] !in SetOf(s[..i])
    ensures |AheadOf(d, p, s[i])| == i
    ensures SetOf(s[..i + 1]) == SetOf(s[..i]) + {s[i]}
  {
    RankIsPlace(d, p, s, i);
    assert s[i] in SetOf(s);
    assert s[..i + 1] == s[..i] + [s[i]];
  }
}
