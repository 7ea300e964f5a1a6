/** SQLite's LIKE with an escape character, and the pattern a subtree rename builds. */
module Like {
  import opened Paths

  /** SQLite's matcher: % any run, _ any one character, a backslash makes the next
      character literal, letters compare without regard to ASCII case. */
  predicate Matches(pattern: string, s: string)
    decreases |pattern|, |s|
  {
    if pattern == "" then s == ""
    else if pattern[0] == '%' then
      Matches(pattern[1..], s) || (s != "" && Matches(pattern, s[1..]))
    else if s == "" then false
    else if pattern[0] == '_' then Matches(pattern[1..], s[1..])
    else if pattern[0] == '\\' then
      |pattern| > 1 && FoldChar(pattern[1]) == FoldChar(s[0]) && Matches(pattern[2..], s[1..])
    else FoldChar(pattern[0]) == FoldChar(s[0]) && Matches(pattern[1..], s[1..])
  }

  function EscapeChar(c: char): string
  {
    if c == '\\' || c == '%' || c == '_' then ['\\', c] else [c]
  }

  function Escaped(value: string): string
  {
    if value == "" then "" else EscapeChar(value[0]) + Escaped(value[1..])
  }

  method EscapeSQLiteLikePattern(value: string) returns (escaped: string)
    ensures escaped == Escaped(value)
  {
    escaped := "";
    var i := 0;
    while i < |value|
      invariant 0 <= i <= |value|
      invariant escaped + Escaped(value[i..]) == Escaped(value)
    {
      ghost var before := escaped;
      escaped := escaped + EscapeChar(value[i]);
      assert value[i..][1..] == value[i + 1..];
      assert before + (EscapeChar(value[i]) + Escaped(value[i + 1..])) == escaped + Escaped(value[i + 1..]);
      i := i + 1;
    }
    assert escaped + Escaped(value[i..]) == escaped;
  }

  function PrefixPattern(dir: Path): string
  {
    Escaped(dir) + "/%"
  }

  /** s starts with prefix once ASCII case is ignored. */
  predicate FoldedPrefix(prefix: string, s: string)
  {
    |prefix| <= |s| && Fold(s[..|prefix|]) == Fold(prefix)
  }

  lemma {:induction false} PercentMatchesAll(s: string)
    ensures Matches("%", s)
    decreases |s|
  {
    if s == "" {
      assert Matches("%"[1..], s);
    } else {
      PercentMatchesAll(s[1..]);
    }
  }

  lemma FoldedPrefixStep(c: char, prefix: string, s: string)
    requires s != ""
    ensures FoldedPrefix([c] + prefix, s)
      <==> FoldChar(c) == FoldChar(s[0]) && FoldedPrefix(prefix, s[1..])
  {
    var whole := [c] + prefix;
    if |whole| <= |s| {
      assert s[..|whole|] == [s[0]] + s[1..][..|prefix|];
      var a, b := Fold(s[..|whole|]), Fold(whole);
      assert a == [FoldChar(s[0])] + Fold(s[1..][..|prefix|]);
      assert b == [FoldChar(c)] + Fold(prefix);
    }
  }

  /** The escaped pattern means its directory literally: no character of the name acts as
      a wildcard, and only letter case is ignored. */
  lemma {:induction false} EscapedPatternIsLiteral(dir: Path, s: string)
    ensures Matches(PrefixPattern(dir), s) <==> FoldedPrefix(dir + "/", s)
    decreases |dir|
  {
    if dir == "" {
      assert PrefixPattern(dir) == "/%";
      assert dir + "/" == "/" == ['/'] + "";
      if s != "" {
        PercentMatchesAll(s[1..]);
        assert "/%"[1..] == "%";
        FoldedPrefixStep('/', "", s);
        assert s[1..][..0] == "";
      }
    } else {
      var c := dir[0];
      assert dir + "/" == [c] + (dir[1..] + "/");
      assert PrefixPattern(dir) == EscapeChar(c) + PrefixPattern(dir[1..]);
      if s != "" {
        EscapedPatternIsLiteral(dir[1..], s[1..]);
        FoldedPrefixStep(c, dir[1..] + "/", s);
        assert PrefixPattern(dir)[|EscapeChar(c)|..] == PrefixPattern(dir[1..]);
      }
    }
  }

  /** The rows a rename of dir picks. */
  predicate Picked(dir: Path, p: Path)
  {
    p == dir || Matches(PrefixPattern(dir), p)
  }

  /** What the UPDATE writes into a row's path column. */
  function NewPath(from: Path, to: Path, p: Path): Path
    requires Picked(from, p)
  {
    EscapedPatternIsLiteral(from, p);
    if p == from then to else to + p[|from|..]
  }

  /** p is picked although it is not in the tree: it differs from it in letter case only. */
  predicate CaseTwin(dir: Path, p: Path)
  {
    Picked(dir, p) && !AtOrUnder(dir, p)
  }

  /** A row is picked exactly when it is in the tree or is a case variant of it. */
  lemma PickedRows(dir: Path, p: Path)
    ensures AtOrUnder(dir, p) ==> Picked(dir, p)
    ensures Picked(dir, p) ==> p == dir || (|p| > |dir| && p[|dir|] == '/' && Fold(p[..|dir|]) == Fold(dir))
    ensures CaseTwin(dir, p) ==> |dir| <= |p| && p[..|dir|] != dir
  {
    EscapedPatternIsLiteral(dir, p);
    if Under(dir, p) {
      assert p[..|dir| + 1] == dir + "/";
    } else if Picked(dir, p) && p != dir {
      var w := p[..|dir| + 1];
      assert Fold(w)[|dir|] == Fold(dir + "/")[|dir|] == FoldChar('/');
      assert p[|dir|] == w[|dir|];
      forall i | 0 <= i < |dir| ensures Fold(p[..|dir|])[i] == Fold(dir)[i] {
        assert Fold(w)[i] == Fold(dir + "/")[i];
      }
    }
  }

  /** Where the UPDATE leaves any row, picked or not. */
  function RowImage(from: Path, to: Path, p: Path): Path
  {
    if Picked(from, p) then NewPath(from, to, p) else p
  }

  /** The UPDATE sends a row where the tree move sends it, exactly unless the row is a case
      twin that does not already lie in a target of the same length. */
  lemma UpdateFollowsTree(from: Path, to: Path, p: Path)
    ensures RowImage(from, to, p) == Relocate(from, to, p)
      <==> (CaseTwin(from, p) ==> |from| <= |p| && p[..|from|] == to)
  {
    PickedRows(from, p);
    if p == from {
      assert p[|from|..] == [];
      assert to + p[|from|..] == to;
    } else if CaseTwin(from, p) {
      var tail := p[|from|..];
      assert p == p[..|from|] + tail;
      if to + tail == p {
        assert |to| == |from|;
        assert to == (to + tail)[..|to|];
      }
    }
  }
}
