/** Reading old versions back, and why what was recorded stays readable. */
module VersionService {
  import opened Wrappers
  import opened Sorting
  import opened Bytes
  import opened Paths
  import opened Tables
  import opened Disk
  import opened Handlers
  import opened Store
  import opened Runs
  import VersionStore

  /** One line of a history listing. */
  datatype Entry = Entry(version: nat, rec: Record)

  /** The rows of one path in ascending version order. */
  ghost predicate Selected(rows: map<Key, Record>, p: Path, out: seq<Entry>)
  {
    && (forall i, j :: 0 <= i < j < |out| ==> out[i].version < out[j].version)
    && (forall i :: 0 <= i < |out| ==> Key(p, out[i].version) in rows && out[i].rec == rows[Key(p, out[i].version)])
    && (forall k :: k in rows && k.path == p ==> Entry(k.version, rows[k]) in out)
  }

  function Oldest(): (Entry, Entry) -> bool
  {
    (a: Entry, b: Entry) => a.version <= b.version
  }

  method GetHistory(store: VersionStore.VersionStore, p: Path) returns (out: seq<Entry>)
    ensures Selected(store.version, p, out)
  {
    var rows: seq<Entry> := [];
    var rest := store.version.Keys;
    while rest != {}
      invariant rest <= store.version.Keys
      invariant forall i, j :: 0 <= i < j < |rows| ==> rows[i].version != rows[j].version
      invariant forall x :: x in rows ==>
        Key(p, x.version) in store.version && Key(p, x.version) !in rest && x.rec == store.version[Key(p, x.version)]
      invariant forall k :: k in store.version && k !in rest && k.path == p ==>
          Entry(k.version, store.version[k]) in rows
      decreases |rest|
    {
      var k :| k in rest;
      rest := rest - {k};
      if k.path == p {
        rows := rows + [Entry(k.version, store.version[k])];
      }
    }
    out := Sort(rows, Oldest());
    SortedIsSelected(store.version, p, rows, out);
  }

  lemma SortedIsSelected(table: map<Key, Record>, p: Path, rows: seq<Entry>, out: seq<Entry>)
    requires multiset(rows) == multiset(out) && Sorted(out, Oldest())
    requires forall i, j :: 0 <= i < j < |rows| ==> rows[i].version != rows[j].version
    requires forall x :: x in rows ==> Key(p, x.version) in table && x.rec == table[Key(p, x.version)]
    requires forall k :: k in table && k.path == p ==> Entry(k.version, table[k]) in rows
    ensures Selected(table, p, out)
  {
    forall x ensures x in rows <==> x in out {
      assert x in multiset(rows) <==> x in multiset(out);
    }
    DistinctPermuted(rows, out);
    forall i, j | 0 <= i < j < |out| ensures out[i].version < out[j].version {
      assert Oldest()(out[i], out[j]);
      assert out[i] != out[j];
      assert out[i] in rows && out[j] in rows;
    }
  }

  /** The content of a recorded version, or an error; the one recorded version that is an error
      is an empty file written whole. */
  method GetVersion(store: VersionStore.VersionStore, p: Path, v: nat) returns (r: Option<Data>)
    ensures r == VersionData(store.Rows(), p, v)
    ensures Recorded(store.Rows()) && 1 <= v <= |History(store.Rows(), p)| ==>
      if r.Some? then r.value == ContentAt(store.Rows(), p, v)
      else Key(p, v) !in store.blob && ContentAt(store.Rows(), p, v) == []
    ensures Recorded(store.Rows()) && !(1 <= v <= |History(store.Rows(), p)|) ==> r == None
  {
    if Recorded(store.Rows()) && 1 <= v <= |History(store.Rows(), p)| {
      ReadableVersions(store.Rows(), p, v);
    }
    if Key(p, v) !in store.version {
      return None;
    }
    var rec := store.version[Key(p, v)];
    if rec.change.Deleted? {
      return Some([]);
    }
    if Key(p, v) !in store.blob {
      return None;
    }
    return Some(store.blob[Key(p, v)]);
  }

  /** A history listing is the whole history: versions 1, 2, 3, ... in order, none missing. */
  lemma {:induction false} ListingIsTheHistory(t: Tables, p: Path, out: seq<Entry>)
    requires Dense(t) && Selected(t.version, p, out)
    ensures |out| == |History(t, p)|
    ensures forall i :: 0 <= i < |out| ==> out[i] == Entry(i + 1, History(t, p)[i])
  {
    forall i | 0 <= i < |out| ensures out[i].version == i + 1 {
      PlaceInListing(t, p, out, i);
    }
    var n := |History(t, p)|;
    if |out| > 0 { assert Key(p, out[|out| - 1].version) in t.version; }
    if n > 0 {
      assert Key(p, n) in t.version;
      var j :| 0 <= j < |out| && out[j] == Entry(n, t.version[Key(p, n)]);
    }
  }

  lemma {:induction false} PlaceInListing(t: Tables, p: Path, out: seq<Entry>, i: nat)
    requires Dense(t) && Selected(t.version, p, out) && i < |out|
    ensures out[i].version == i + 1
    decreases i
  {
    assert Key(p, out[i].version) in t.version;
    if i > 0 { PlaceInListing(t, p, out, i - 1); }
    assert Key(p, i + 1) in t.version;
    var j :| 0 <= j < |out| && out[j] == Entry(i + 1, t.version[Key(p, i + 1)]);
    assert i > 0 ==> j >= i - 1;
  }

  /** A recorded version reads back as its content; the only ones that cannot be read are the
      results of writing an empty file whole. */
  lemma ReadableVersions(t: Tables, p: Path, v: nat)
    requires Recorded(t) && 1 <= v <= |History(t, p)|
    ensures VersionData(t, p, v).Some? ==> VersionData(t, p, v) == Some(ContentAt(t, p, v))
    ensures VersionData(t, p, v).None? <==>
      !History(t, p)[v - 1].change.Deleted? && Key(p, v) !in t.blob
    ensures VersionData(t, p, v).None? ==> ContentAt(t, p, v) == []
  {
    assert RecordOk(t, Key(p, v));
  }

  /** An accepted change can be read back under the version it reports, exactly unless it wrote
      an empty file whole, or wrote nothing because the current version, which it then reports,
      already was such a one. */
  lemma AcceptedChangeReadsBack(s: State, p: Path, m: Mutation, base: nat, e: Env)
    requires Consistent(s) && p != "" && !Reserved(p)
    requires Mutate(s, p, m, base, e).1.Accepted?
    ensures !Malformed(m)
    ensures var (s', r) := Mutate(s, p, m, base, e);
      && (VersionData(s'.db, p, r.version).None? <==>
        if NothingToDo(s.disk, p, m, ResolveHead(s, p)) then Key(p, r.version) !in s.db.blob
        else m.Put? && m.data == [])
      && (VersionData(s'.db, p, r.version).Some? ==>
        VersionData(s'.db, p, r.version) == Some(Applied(m, BytesAt(s.disk, p))))
  {
    MutateOutcome(s, p, m, base, e);
    var (s', r) := Mutate(s, p, m, base, e);
    if NothingToDo(s.disk, p, m, ResolveHead(s, p)) {
      ShortcutReadsBack(s, p, m);
    } else {
      ReadableVersions(s'.db, p, r.version);
      NoSuchBlob(s.db, p);
    }
  }

  lemma ShortcutReadsBack(s: State, p: Path, m: Mutation)
    requires Consistent(s) && !Reserved(p) && !Malformed(m)
    requires NothingToDo(s.disk, p, m, ResolveHead(s, p))
    ensures var r := VersionData(s.db, p, ResolveHead(s, p).version);
      && (r.None? <==> Key(p, ResolveHead(s, p).version) !in s.db.blob)
      && (r.Some? ==> r == Some(Applied(m, BytesAt(s.disk, p))))
  {
    var v := ResolveHead(s, p).version;
    ResolvedVersion(s, p);
    if Live(s.db, p) {
      LiveFile(s, p);
      ReadableVersions(s.db, p, v);
      ShortcutIsSound(s, p, m);
    } else {
      DenseCounter(s.db, p);
      assert Key(p, v) !in s.db.version;
    }
  }

  lemma NoSuchBlob(t: Tables, p: Path)
    requires Recorded(t)
    ensures Key(p, |History(t, p)| + 1) !in t.blob
  {
    assert Key(p, |History(t, p)| + 1) !in t.version;
  }

  /** Every version reads the same for ever: along any run, failures and renames included, a
      version of a file gives the same answer at the place the file has moved to. */
  lemma VersionsReadForEver(s: State, script: Script, p: Path, v: nat)
    requires Recorded(s.db) && WellFormed(s.disk) && Proper(script) && NamedAll(script)
    requires 1 <= v <= |History(s.db, p)|
    ensures VersionData(Run(s, script).db, Destination(s, script, p), v) == VersionData(s.db, p, v)
  {
    RunKeepsHistory(s, script, p);
    var t, q := Run(s, script).db, Destination(s, script, p);
    assert History(t, q)[v - 1] == History(s.db, p)[v - 1];
    assert Key(p, v) in s.db.version && Key(q, v) in t.version;
  }
}
