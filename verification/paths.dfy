/** Slash-separated paths, subtrees and conflict-copy names. */
module Paths {
  type Path = string

  const CONFLICT_MARK: string := ".roodox-conflict-"

  /** p lies strictly inside the directory dir. */
  predicate Under(dir: Path, p: Path)
  {
    |p| > |dir| && p[..|dir|] == dir && p[|dir|] == '/'
  }

  predicate AtOrUnder(dir: Path, p: Path)
  {
    p == dir || Under(dir, p)
  }

  /** Neither path lies inside the other, so a tree can move from one to the other. */
  predicate Unnested(a: Path, b: Path)
  {
    a != b && !Under(a, b) && !Under(b, a)
  }

  /** The directories that have to exist before p can. */
  function Ancestors(p: Path): (s: set<Path>)
    ensures forall q :: q in s <==> q != "" && Under(q, p)
  {
    var s := set i | 0 < i < |p| && p[i] == '/' :: p[..i];
    assert forall q | q != "" && Under(q, p) :: q == p[..|q|];
    s
  }

  /** Where a path ends up when the tree at from moves to to. */
  function Relocate(from: Path, to: Path, p: Path): (q: Path)
  {
    if AtOrUnder(from, p) then to + p[|from|..] else p
  }

  lemma RelocateToItself(from: Path, p: Path)
    ensures Relocate(from, from, p) == p
  {
    if AtOrUnder(from, p) { assert p == p[..|from|] + p[|from|..]; }
  }

  lemma UnderTransitive(a: Path, b: Path, c: Path)
    requires AtOrUnder(a, b) && AtOrUnder(b, c)
    ensures AtOrUnder(a, c)
    ensures Under(a, b) || Under(b, c) ==> Under(a, c)
  {
    if Under(a, b) && Under(b, c) {
      assert c[..|b|] == b && c[..|a|] == c[..|b|][..|a|];
      assert c[|a|] == c[..|b|][|a|];
    }
  }

  /** Two directories above the same path are one above the other. */
  lemma AncestorsAreNested(a: Path, b: Path, c: Path)
    requires AtOrUnder(a, c) && AtOrUnder(b, c)
    ensures AtOrUnder(a, b) || AtOrUnder(b, a)
  {
    if |a| <= |b| {
      assert b == c[..|b|];
      assert b[..|a|] == a;
      if |a| < |b| { assert b[|a|] == c[|a|]; }
    } else {
      assert a == c[..|a|];
      assert a[..|b|] == b;
      assert a[|b|] == c[|b|];
    }
  }

  lemma RelocatedLiesInTarget(from: Path, to: Path, p: Path)
    requires AtOrUnder(from, p)
    ensures AtOrUnder(to, Relocate(from, to, p))
    ensures Relocate(from, to, p) == to <==> p == from
  {
    var q := Relocate(from, to, p);
    assert q[..|to|] == to;
    if p == from {
      assert p[|from|..] == [];
      assert q == to;
    } else {
      assert q[|to|] == p[|from|];
    }
  }

  /** Moving there and back returns every path that was not already in the target tree. */
  lemma RelocateBack(from: Path, to: Path, p: Path)
    requires Unnested(from, to)
    requires !AtOrUnder(to, p)
    ensures Relocate(to, from, Relocate(from, to, p)) == p
  {
    if AtOrUnder(from, p) {
      RelocatedLiesInTarget(from, to, p);
      assert (to + p[|from|..])[|to|..] == p[|from|..];
      assert p == p[..|from|] + p[|from|..];
      if p == from { assert p[..|from|] == from; }
    }
  }

  /** Directories above the moved tree stay where they are. */
  lemma ParentStays(from: Path, to: Path, a: Path)
    requires Unnested(from, to) && a in Ancestors(from)
    ensures !AtOrUnder(from, a) && Relocate(from, to, a) == a && a != to
  {
    assert |a| < |from|;
  }

  /** So do directories above a path that is not moved. */
  lemma OutsideStays(from: Path, to: Path, p: Path, a: Path)
    requires !AtOrUnder(from, p) && a in Ancestors(p)
    ensures !AtOrUnder(from, a) && Relocate(from, to, a) == a
  {
    if AtOrUnder(from, a) { UnderTransitive(from, a, p); }
  }

  /** A directory inside the target tree above a moved path is itself a moved directory. */
  lemma MovedParent(from: Path, to: Path, p: Path, a: Path)
    requires AtOrUnder(from, p) && AtOrUnder(to, a) && Under(a, Relocate(from, to, p))
    ensures var x := from + a[|to|..];
      AtOrUnder(from, x) && Under(x, p) && Relocate(from, to, x) == a
  {
    var q := Relocate(from, to, p);
    var x := from + a[|to|..];
    assert a == q[..|a|];
    assert a[|to|..] == p[|from|..][..|a| - |to|];
    assert p == p[..|from|] + p[|from|..] && p[..|from|] == from;
    assert x == p[..|x|];
    assert p[|x|] == q[|a|];
    if a == to {
      assert a[|to|..] == [] && x == from;
    } else {
      assert x[|from|] == a[|to|];
      assert x[..|from|] == from;
    }
    assert x[|from|..] == a[|to|..];
    assert a == to + a[|to|..] by { assert a[..|to|] == to; }
  }

  lemma MovedParentOf(from: Path, to: Path, p: Path, a: Path) returns (x: Path)
    requires Unnested(from, to) && from != ""
    requires AtOrUnder(from, p) && AtOrUnder(to, a) && Under(a, Relocate(from, to, p))
    ensures x in Ancestors(p) && x != to && Relocate(from, to, x) == a
  {
    MovedParent(from, to, p, a);
    x := from + a[|to|..];
  }

  // ---------- conflict copies ----------

  /** ASCII lower case, as the conflict test and SQLite's LIKE fold letters. */
  function FoldChar(c: char): (d: char)
    ensures FoldChar(c) == '/' <==> c == '/'
  {
    if 'A' <= c <= 'Z' then (c as int + 32) as char else c
  }

  function Fold(s: string): (t: string)
    ensures |t| == |s|
    ensures forall i :: 0 <= i < |s| ==> t[i] == FoldChar(s[i])
  {
    seq(|s|, i requires 0 <= i < |s| => FoldChar(s[i]))
  }

  predicate MarkAt(p: Path, i: nat)
  {
    i + |CONFLICT_MARK| <= |p| && Fold(p[i..i + |CONFLICT_MARK|]) == CONFLICT_MARK
  }

  /** The last component of p carries the conflict mark; cleanup may delete such files. */
  predicate Reserved(p: Path)
  {
    exists i :: 0 <= i < |p| && MarkAt(p, i) && '/' !in p[i..]
  }

  /** The last component of a path. */
  function Base(p: Path): (b: string)
  {
    if p == "" || p[|p| - 1] == '/' then "" else Base(p[..|p| - 1]) + [p[|p| - 1]]
  }

  /** Names of directories that the walks over the whole tree do not enter. */
  predicate Ignored(name: string)
  {
    name in {".git", ".svn", ".DS_Store"} || EndsWith(name, "~") || EndsWith(name, ".tmp") || EndsWith(name, ".swp")
  }

  predicate EndsWith(s: string, suffix: string)
  {
    |s| >= |suffix| && s[|s| - |suffix|..] == suffix
  }

  /** A walk over the whole tree reaches p. */
  predicate Walked(p: Path)
  {
    forall a :: a in Ancestors(p) ==> !Ignored(Base(a))
  }

  /** q lies beside p and its name is p's name, the mark, and something after it. */
  predicate CopyOf(p: Path, q: Path)
  {
    var stem := p + CONFLICT_MARK;
    |q| > |stem| && q[..|stem|] == stem && '/' !in q[|p|..]
  }

  function ConflictPath(p: Path, tag: string): Path
  {
    p + CONFLICT_MARK + tag
  }

  lemma MarkAfter(p: Path, q: Path)
    requires |q| >= |p + CONFLICT_MARK| && q[..|p + CONFLICT_MARK|] == p + CONFLICT_MARK
    ensures MarkAt(q, |p|) && q[..|p|] == p
    ensures forall j :: |p| <= j < |p| + |CONFLICT_MARK| ==> q[j] == CONFLICT_MARK[j - |p|]
  {
    var stem := p + CONFLICT_MARK;
    assert q[|p|..|p| + |CONFLICT_MARK|] == stem[|p|..] == CONFLICT_MARK;
    assert Fold(CONFLICT_MARK) == CONFLICT_MARK;
    assert q[..|p|] == stem[..|p|];
    forall j | |p| <= j < |p| + |CONFLICT_MARK| ensures q[j] == CONFLICT_MARK[j - |p|] {
      assert q[j] == q[..|stem|][j];
    }
  }

  lemma CopyIsReserved(p: Path, q: Path)
    requires CopyOf(p, q)
    ensures Reserved(q)
  {
    MarkAfter(p, q);
  }

  /** A generated name belongs to its file, lies beside it and differs from it. */
  lemma ConflictPathFacts(p: Path, tag: string)
    requires p != "" && tag != "" && '/' !in tag
    ensures CopyOf(p, ConflictPath(p, tag)) && Reserved(ConflictPath(p, tag))
    ensures Ancestors(ConflictPath(p, tag)) == Ancestors(p)
    ensures ConflictPath(p, tag) != p
  {
    var q := ConflictPath(p, tag);
    assert q[..|p + CONFLICT_MARK|] == p + CONFLICT_MARK;
    assert q[|p|..] == CONFLICT_MARK + tag;
    CopyIsReserved(p, q);
    assert q[..|p|] == p;
    forall i | |p| <= i < |q| ensures q[i] != '/' {
      assert q[i] == q[|p|..][i - |p|];
    }
    forall a | a in Ancestors(q) ensures a in Ancestors(p) {
      assert p[..|a|] == q[..|a|];
    }
    forall a | a in Ancestors(p) ensures a in Ancestors(q) {
      assert q[..|a|] == p[..|a|];
    }
  }

  /** One file is a copy of at most one file with an unmarked name. */
  lemma CopiesTellTheirFile(p: Path, p2: Path, q: Path)
    requires CopyOf(p, q) && CopyOf(p2, q) && !Reserved(p) && !Reserved(p2)
    ensures p == p2
  {
    MarkAfter(p, q);
    MarkAfter(p2, q);
    if |p| < |p2| {
      LongerStemIsMarked(p, p2, q);
    } else if |p2| < |p| {
      LongerStemIsMarked(p2, p, q);
    }
  }

  lemma LongerStemIsMarked(p: Path, p2: Path, q: Path)
    requires CopyOf(p, q) && CopyOf(p2, q) && |p| < |p2|
    ensures Reserved(p2)
  {
    MarkAfter(p, q);
    MarkAfter(p2, q);
    var m := |CONFLICT_MARK|;
    assert q[|p2|] == CONFLICT_MARK[0] == '.';
    assert forall k :: 0 < k < m ==> CONFLICT_MARK[k] != '.';
    assert |p2| >= |p| + m;
    assert p2[..|p + CONFLICT_MARK|] == q[..|p + CONFLICT_MARK|];
    MarkAfter(p, p2);
    forall j | |p| <= j < |p2| ensures p2[j] != '/' {
      assert p2[j] == q[j] == q[|p|..][j - |p|];
    }
  }

  lemma SlashCutsMarks(a: Path, b: Path, i: nat)
    requires b != "" && b[0] == '/' && i < |a + b|
    ensures MarkAt(a + b, i) && '/' !in (a + b)[i..] ==> i >= |a| && MarkAt(b, i - |a|) && '/' !in b[i - |a|..]
  {
    var p, m := a + b, |CONFLICT_MARK|;
    assert p[|a|] == '/';
    if i <= |a| {
      assert p[i..][|a| - i] == '/';
    } else {
      assert p[i..] == b[i - |a|..];
      if i + m <= |p| { assert p[i..i + m] == b[i - |a|..i - |a| + m]; }
    }
  }

  lemma MarkBelow(a: Path, b: Path)
    requires b != "" && b[0] == '/'
    ensures Reserved(a + b) <==> Reserved(b)
  {
    var p, m := a + b, |CONFLICT_MARK|;
    if Reserved(p) {
      var i :| 0 <= i < |p| && MarkAt(p, i) && '/' !in p[i..];
      SlashCutsMarks(a, b, i);
    }
    if Reserved(b) {
      var i :| 0 <= i < |b| && MarkAt(b, i) && '/' !in b[i..];
      assert p[|a| + i..|a| + i + m] == b[i..i + m];
      assert p[|a| + i..] == b[i..];
      assert MarkAt(p, |a| + i);
    }
  }

  /** Moving a tree neither marks nor unmarks the paths below its root. */
  lemma RelocateReserves(from: Path, to: Path, p: Path)
    requires Under(from, p)
    ensures Reserved(Relocate(from, to, p)) <==> Reserved(p)
  {
    var rest := p[|from|..];
    assert p == from + rest;
    MarkBelow(from, rest);
    MarkBelow(to, rest);
  }

  // ---------- what the mark and the walk mean ----------

  /** A last component is marked exactly if the mark, in any letter case, is part of it. */
  lemma MarkedNames(dir: Path, name: string)
    requires '/' !in name
    ensures Reserved(name) <==>
      exists i, j :: 0 <= i <= j <= |name| && Fold(name[i..j]) == ".roodox-conflict-"
    ensures Reserved(dir + "/" + name) <==> Reserved(name)
  {
    if Reserved(name) {
      var i :| 0 <= i < |name| && MarkAt(name, i) && '/' !in name[i..];
      assert Fold(name[i..i + |CONFLICT_MARK|]) == ".roodox-conflict-";
    }
    if i, j :| 0 <= i <= j <= |name| && Fold(name[i..j]) == ".roodox-conflict-" {
      assert j == i + |CONFLICT_MARK| && MarkAt(name, i);
    }
    SlashName(name);
    MarkBelow(dir, "/" + name);
    assert dir + "/" + name == dir + ("/" + name);
  }

  lemma SlashName(name: string)
    requires '/' !in name
    ensures Reserved("/" + name) <==> Reserved(name)
  {
    var p, m := "/" + name, |CONFLICT_MARK|;
    if Reserved(p) {
      var i :| 0 <= i < |p| && MarkAt(p, i) && '/' !in p[i..];
      assert i > 0 by { assert p[0] == '/'; }
      assert p[i..] == name[i - 1..] && p[i..i + m] == name[i - 1..i - 1 + m];
      assert MarkAt(name, i - 1);
    }
    if Reserved(name) {
      var i :| 0 <= i < |name| && MarkAt(name, i) && '/' !in name[i..];
      assert p[i + 1..] == name[i..] && p[i + 1..i + 1 + m] == name[i..i + m];
      assert MarkAt(p, i + 1);
    }
  }

  /** The last component is what follows the last slash. */
  lemma {:induction false} LastComponent(dir: Path, name: string)
    requires '/' !in name
    ensures Base(name) == name && Base(dir + "/" + name) == name
    decreases |name|
  {
    if name == "" {
      assert (dir + "/" + name)[|dir|] == '/';
    } else {
      var n := |name| - 1;
      LastComponent(dir, name[..n]);
      assert name == name[..n] + [name[n]];
      assert (dir + "/" + name)[..|dir| + 1 + n] == dir + "/" + name[..n];
      assert (dir + "/" + name)[|dir| + 1 + n] == name[n];
    }
  }

  /** A walk enters every directory but those with an ignored name. */
  lemma WalkedBelow(dir: Path, name: string)
    requires dir != "" && '/' !in name
    ensures Walked(dir + "/" + name) <==> Walked(dir) && !Ignored(Base(dir))
    ensures Walked(name)
  {
    var p := dir + "/" + name;
    assert p[..|dir|] == dir && p[|dir|] == '/';
    forall a | a in Ancestors(p) ensures a == dir || a in Ancestors(dir) {
      assert p[|a|] == '/';
      if |a| < |dir| { assert dir[..|a|] == p[..|a|] && dir[|a|] == p[|a|]; }
      if |a| == |dir| { assert a == p[..|a|]; }
    }
    forall a | a in Ancestors(dir) ensures a in Ancestors(p) {
      assert p[..|a|] == dir[..|a|] && p[|a|] == dir[|a|];
    }
    assert dir in Ancestors(p);
    forall a ensures a !in Ancestors(name) { }
  }

  /** Two characters fold together exactly if they are the same ASCII letter up to case. */
  lemma FoldsLetterCase(c: char, d: char)
    ensures FoldChar(c) == FoldChar(d) <==>
      || c == d
      || ('A' <= c <= 'Z' && d as int == c as int + 32)
      || ('A' <= d <= 'Z' && c as int == d as int + 32)
  { }

  /** name is some stem with the suffix after it. */
  ghost predicate HasSuffix(name: string, suffix: string)
  {
    exists stem: string :: name == stem + suffix
  }

  lemma SuffixMeans(name: string, suffix: string)
    ensures EndsWith(name, suffix) <==> HasSuffix(name, suffix)
  {
    if EndsWith(name, suffix) { assert name == name[..|name| - |suffix|] + suffix; }
  }

  /** The walk leaves out version control, Finder and editor files. */
  lemma IgnoredNames(name: string)
    ensures Ignored(name) <==>
      || name == ".git" || name == ".svn" || name == ".DS_Store"
      || HasSuffix(name, "~") || HasSuffix(name, ".tmp") || HasSuffix(name, ".swp")
  {
    SuffixMeans(name, "~");
    SuffixMeans(name, ".tmp");
    SuffixMeans(name, ".swp");
  }
}
