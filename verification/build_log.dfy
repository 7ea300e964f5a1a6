/** The build log that keeps its most recent bytes within a limit. */
module BuildLog {
  type Text = string

  const MARKER: Text := "[... build log truncated ...]\n"

  function Last(s: Text, n: nat): (t: Text)
    ensures |t| == if n <= |s| then n else |s|
  {
    if n <= |s| then s[|s| - n..] else s
  }

  /** What the buffer shows of everything ever written. */
  function Bounded(full: Text, limit: int): Text
  {
    Shown(MARKER, full, limit)
  }

  function Shown(marker: Text, full: Text, limit: int): Text
  {
    if limit <= 0 || |full| <= limit then full
    else if limit <= |marker| then Last(full, limit)
    else marker + Last(full, limit - |marker|)
  }

  method AppendLogWithLimit(existing: Text, entry: Text, limit: int) returns (r: Text)
    ensures r == if limit <= 0 then existing + entry else Bounded(existing + entry, limit)
  {
    if limit <= 0 {
      return existing + entry;
    }
    var buf := existing + entry;
    if |buf| <= limit {
      return buf;
    }
    if limit <= |MARKER| {
      return buf[|buf| - limit..];
    }
    var tailLen := limit - |MARKER|;
    var start := |buf| - tailLen;
    if start < 0 {
      start := 0;
    }
    var trimmed := MARKER;
    trimmed := trimmed + buf[start..];
    return trimmed;
  }

  lemma LastOfJoined(s: Text, t: Text, entry: Text, n: nat)
    requires Last(s, n) == Last(t, n) && n <= |s| && n <= |t|
    ensures Last(s + entry, n) == Last(t + entry, n)
  {
    var k := if n <= |entry| then 0 else n - |entry|;
    assert Last(s + entry, n) == Last(s, n)[n - k..] + Last(entry, n);
    assert Last(t + entry, n) == Last(t, n)[n - k..] + Last(entry, n);
  }

  /** Whatever stands before the shown end, the new end is that of the whole text. */
  lemma EndAfterMarker(marker: Text, full: Text, entry: Text, tail: nat)
    requires tail <= |full|
    ensures Last(marker + Last(full, tail) + entry, tail) == Last(full + entry, tail)
    ensures |marker + Last(full, tail) + entry| == |marker| + tail + |entry|
  {
    var shown := marker + Last(full, tail);
    assert shown[|marker|..] == Last(full, tail);
    LastOfJoined(shown, full, entry, tail);
  }

  lemma NothingAppended(s: Text)
    ensures s + "" == s
  { }

  lemma Regrouped(a: Text, b: Text, c: Text)
    ensures a + b + c == a + (b + c)
  { }

  lemma AppendToShown(marker: Text, full: Text, entry: Text, limit: int)
    ensures Shown(marker, Shown(marker, full, limit) + entry, limit) == Shown(marker, full + entry, limit)
  {
    if 0 < limit < |full| {
      var shown := Shown(marker, full, limit);
      if entry == "" {
        NothingAppended(full);
        NothingAppended(shown);
      } else if limit > |marker| {
        EndAfterMarker(marker, full, entry, limit - |marker|);
      } else {
        LastOfJoined(shown, full, entry, limit);
      }
    }
  }

  /** Appending to the shown text is showing the appended text: truncating again neither
      stacks markers nor loses recent bytes. */
  lemma AppendToBounded(full: Text, entry: Text, limit: int)
    ensures Bounded(Bounded(full, limit) + entry, limit) == Bounded(full + entry, limit)
  {
    AppendToShown(MARKER, full, entry, limit);
  }

  /** What is shown of a text over the limit fits it exactly and is the end of the text, after the
      marker if there is room for it. */
  lemma ShowsTheEnd(full: Text, limit: int)
    ensures limit <= 0 || |full| <= limit ==> Bounded(full, limit) == full
    ensures 0 < limit < |full| ==>
      var k := if limit <= |MARKER| then limit else limit - |MARKER|;
      var shown := Bounded(full, limit);
      && |shown| == limit && shown[limit - k..] == full[|full| - k..]
      && (limit > |MARKER| ==> shown[..limit - k] == "[... build log truncated ...]\n")
  { }

  class BuildJob {
    var logBuf: Text
    const maxLogBytes: int
    ghost var written: Text

    ghost predicate Valid()
      reads this
    {
      logBuf == Bounded(written, maxLogBytes)
    }

    constructor (maxLogBytes: int)
      ensures Valid() && written == "" && this.maxLogBytes == maxLogBytes
    {
      this.maxLogBytes := maxLogBytes;
      logBuf, written := "", "";
    }

    method AppendLog(entry: Text)
      requires Valid()
      modifies this
      ensures Valid() && written == old(written) + entry
    {
      AppendToBounded(written, entry, maxLogBytes);
      logBuf := AppendLogWithLimit(logBuf, entry, maxLogBytes);
      written := written + entry;
    }
  }

  function Appended(buf: Text, entries: seq<Text>, limit: int): Text
    decreases |entries|
  {
    if entries == [] then buf else Appended(Bounded(buf + entries[0], limit), entries[1..], limit)
  }

  function Concat(entries: seq<Text>): Text
  {
    if entries == [] then "" else entries[0] + Concat(entries[1..])
  }

  /** After any sequence of appends the log depends on the full text alone. */
  lemma {:induction false} LogShowsTheFullText(full: Text, entries: seq<Text>, limit: int)
    ensures Appended(Bounded(full, limit), entries, limit) == Bounded(full + Concat(entries), limit)
    decreases |entries|
  {
    if entries == [] {
      NothingAppended(full);
    } else {
      AppendToBounded(full, entries[0], limit);
      LogShowsTheFullText(full + entries[0], entries[1..], limit);
      Regrouped(full, entries[0], Concat(entries[1..]));
    }
  }
}
