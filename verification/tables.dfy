/** The four file tables, the transactions on them, and what every transaction keeps. */
module Tables {
  import opened Wrappers
  import opened Bytes
  import opened Paths
  import opened Like

  /** SHA-256 is taken to be collision-free, so a digest stands for its content. */
  datatype Digest = NoDigest | Sha256(content: Data)

  datatype ChangeType = Created | Modified | Deleted

  datatype Meta = Meta(isDir: bool, size: nat, mtime: int, hash: Digest, version: nat)

  datatype Record = Record(mtime: int, hash: Digest, size: nat, change: ChangeType)

  datatype Key = Key(path: Path, version: nat)

  datatype Tables = Tables(
    meta: map<Path, Meta>,
    head: map<Path, nat>,
    version: map<Key, Record>,
    blob: map<Key, Data>)

  const EMPTY: Tables := Tables(map[], map[], map[], map[])
  const DIR_META: Meta := Meta(true, 0, 0, NoDigest, 0)

  // ---------- transactions ----------

  /** What happens to one attempt at a transaction that the SQL itself does not decide. */
  datatype Attempt = Clean | Busy | Broken

  const MAX_ATTEMPTS: nat := 5

  /** The retry loop reaches an undisturbed attempt. */
  predicate Undisturbed(tx: seq<Attempt>, attempts: nat)
  {
    attempts > 0 && tx != [] &&
    (tx[0].Clean? || (tx[0].Busy? && Undisturbed(tx[1..], attempts - 1)))
  }

  datatype TxOp =
    | Save(path: Path, size: nat, mtime: int, hash: Digest, change: ChangeType, data: Option<Data>)
    | Remove(path: Path, size: nat, mtime: int)
    | Rename(from: Path, to: Path)

  /** SELECT COALESCE(MAX(version), 0) over the rows of one path. */
  ghost function MaxVersion(rows: map<Key, Record>, p: Path): (n: nat)
    ensures forall k :: k in rows && k.path == p ==> k.version <= n
    ensures n == 0 || Key(p, n) in rows
    decreases |rows|
  {
    if k :| k in rows && k.path == p then
      assert (rows - {k}).Keys < rows.Keys;
      Max(k.version, MaxVersion(rows - {k}, p))
    else 0
  }

  /** The counter a new version continues: the file_head row, or what older data implies. */
  ghost function CurrentVersion(t: Tables, p: Path): nat
  {
    if p in t.head then t.head[p]
    else Max(MaxVersion(t.version, p), if p in t.meta then t.meta[p].version else 0)
  }

  /** Appending one version: counter, meta row, record and optional blob, all or nothing. */
  ghost function AppendTx(t: Tables, p: Path, live: Option<Meta>, rec: Record, data: Option<Data>)
    : Option<(Tables, nat)>
  {
    var v := CurrentVersion(t, p) + 1;
    var key := Key(p, v);
    if key in t.version || (data.Some? && key in t.blob) then None
    else Some((Tables(
      if live.Some? then t.meta[p := live.value.(version := v)] else t.meta - {p},
      t.head[p := v],
      t.version[key := rec],
      if data.Some? then t.blob[key := data.value] else t.blob), v))
  }

  /** The primary key survives the update. */
  ghost predicate Injective<K(!new)>(rows: set<K>, image: K -> K)
  {
    forall a, b {:trigger image(a), image(b)} :: a in rows && b in rows && image(a) == image(b) ==> a == b
  }

  ghost function Images<K(!new)>(rows: set<K>, image: K -> K): (s: set<K>)
    ensures forall r {:trigger image(r)} :: r in rows ==> image(r) in s
    ensures forall k :: k in s ==> exists r {:trigger image(r)} :: r in rows && image(r) == k
  {
    set r | r in rows :: image(r)
  }

  ghost function Source<K(!new)>(rows: set<K>, image: K -> K, k: K): (r: K)
    requires k in Images(rows, image)
    ensures r in rows && image(r) == k
  {
    var r :| r in rows && image(r) == k; r
  }

  /** A table after every key went to its image. */
  ghost function Moved<K(!new), V>(m: map<K, V>, image: K -> K): (out: map<K, V>)
    requires Injective(m.Keys, image)
    ensures forall r {:trigger image(r)} :: r in m ==> image(r) in out && out[image(r)] == m[r]
    ensures forall k :: k in out ==> exists r {:trigger image(r)} :: r in m && image(r) == k
  {
    map k | k in Images(m.Keys, image) :: m[Source(m.Keys, image, k)]
  }

  /** What an UPDATE of the path column does to rows keyed by path and version. */
  function ByPath(image: Path -> Path): Key -> Key
  {
    (k: Key) => k.(path := image(k.path))
  }

  ghost predicate Movable(t: Tables, image: Path -> Path)
  {
    && Injective(t.meta.Keys, image)
    && Injective(t.head.Keys, image)
    && Injective(t.version.Keys, ByPath(image))
    && Injective(t.blob.Keys, ByPath(image))
  }

  /** The UPDATE of all four tables; a colliding primary key aborts it. */
  ghost function MoveTables(t: Tables, image: Path -> Path): Option<Tables>
  {
    if !Movable(t, image) then None
    else Some(Tables(
      Moved(t.meta, image), Moved(t.head, image),
      Moved(t.version, ByPath(image)), Moved(t.blob, ByPath(image))))
  }

  function PathImage(from: Path, to: Path): Path -> Path
  {
    (p: Path) => RowImage(from, to, p)
  }

  ghost function RenameTx(t: Tables, from: Path, to: Path): Option<Tables>
  {
    MoveTables(t, PathImage(from, to))
  }

  /** What the body of a transaction does; None is a constraint violation. */
  ghost function Body(t: Tables, op: TxOp): Option<(Tables, nat)>
  {
    match op
    case Save(p, size, mtime, hash, change, data) =>
      AppendTx(t, p, Some(Meta(false, size, mtime, hash, 0)), Record(mtime, hash, size, change), data)
    case Remove(p, size, mtime) =>
      AppendTx(t, p, None, Record(mtime, NoDigest, size, Deleted), None)
    case Rename(from, to) =>
      if from == to then Some((t, 0)) else
      var r := RenameTx(t, from, to);
      if r.Some? then Some((r.value, 0)) else None
  }

  /** A whole transaction: the body's effect exactly once, or nothing. */
  ghost function Transact(t: Tables, op: TxOp, tx: seq<Attempt>): Option<(Tables, nat)>
  {
    if Undisturbed(tx, MAX_ATTEMPTS) then Body(t, op) else None
  }

  /** One of the first five attempts ends clean and every one before it met a busy database. */
  predicate GetsThrough(tx: seq<Attempt>)
  {
    exists i :: 0 <= i < 5 && i < |tx| && tx[i].Clean? && forall j :: 0 <= j < i ==> tx[j].Busy?
  }

  lemma {:induction false} RetriedUntilClean(tx: seq<Attempt>, attempts: nat)
    ensures Undisturbed(tx, attempts) <==>
      exists i :: 0 <= i < attempts && i < |tx| && tx[i].Clean? && forall j :: 0 <= j < i ==> tx[j].Busy?
    decreases attempts
  {
    if attempts > 0 && tx != [] {
      RetriedUntilClean(tx[1..], attempts - 1);
      if Undisturbed(tx, attempts) && !tx[0].Clean? {
        var i :| 0 <= i < attempts - 1 && i < |tx[1..]| && tx[1..][i].Clean?
              && forall j :: 0 <= j < i ==> tx[1..][j].Busy?;
        assert tx[i + 1].Clean?;
        forall j | 0 <= j < i + 1 ensures tx[j].Busy? { assert j > 0 ==> tx[j] == tx[1..][j - 1]; }
      }
      if i :| 0 <= i < attempts && i < |tx| && tx[i].Clean? && forall j :: 0 <= j < i ==> tx[j].Busy? {
        if i > 0 {
          assert tx[1..][i - 1].Clean?;
          assert tx[0].Busy?;
        }
      }
    }
  }

  /** A transaction lands exactly if it gets through to an attempt that ends clean. */
  lemma LandsIffItGetsThrough(tx: seq<Attempt>)
    ensures Undisturbed(tx, MAX_ATTEMPTS) <==> GetsThrough(tx)
  {
    RetriedUntilClean(tx, MAX_ATTEMPTS);
  }

  // ---------- what the tables keep ----------

  /** The versions of a path are exactly 1..n, with n its file_head counter. */
  ghost predicate Dense(t: Tables)
  {
    && (forall p :: p in t.head ==> t.head[p] >= 1)
    && (forall k :: k in t.version <==> k.path in t.head && 1 <= k.version <= t.head[k.path])
  }

  /** A record and its blob describe the same bytes; only an empty file may lack its blob. */
  ghost predicate RecordOk(t: Tables, k: Key)
    requires k in t.version
  {
    var rec := t.version[k];
    if rec.change.Deleted? then rec.hash == NoDigest && k !in t.blob
    else
      && rec.hash.Sha256?
      && rec.size == |rec.hash.content|
      && (if k in t.blob then t.blob[k] == rec.hash.content else rec.hash.content == [])
  }

  ghost predicate Faithful(t: Tables)
  {
    && t.blob.Keys <= t.version.Keys
    && forall k :: k in t.version ==> RecordOk(t, k)
  }

  /** A file's meta row repeats its newest record; a directory's row carries no version. */
  ghost predicate MetaOk(t: Tables, p: Path)
    requires Dense(t) && p in t.meta
  {
    var m := t.meta[p];
    if m.isDir then m == DIR_META
    else
      && p in t.head
      && (var last := t.version[Key(p, t.head[p])];
        && !last.change.Deleted?
        && m == Meta(false, last.size, last.mtime, last.hash, t.head[p]))
  }

  ghost predicate Recorded(t: Tables)
  {
    && Dense(t)
    && Faithful(t)
    && (forall p :: p in t.meta ==> MetaOk(t, p))
    && (forall p :: p in t.head && p !in t.meta ==> t.version[Key(p, t.head[p])].change.Deleted?)
  }

  /** p is a file that exists now. */
  predicate Live(t: Tables, p: Path)
  {
    p in t.meta && !t.meta[p].isDir
  }

  /** All versions of a path, oldest first. */
  ghost function History(t: Tables, p: Path): (h: seq<Record>)
    requires Dense(t)
    ensures |h| == if p in t.head then t.head[p] else 0
    ensures forall i :: 0 <= i < |h| ==> Key(p, i + 1) in t.version && h[i] == t.version[Key(p, i + 1)]
  {
    if p in t.head then
      seq(t.head[p], i requires 0 <= i < t.head[p] => t.version[Key(p, i + 1)])
    else []
  }

  /** p was p0's place: same records, same blobs. */
  ghost predicate SameFile(t: Tables, p: Path, t': Tables, p': Path)
    requires Dense(t) && Dense(t')
  {
    && History(t, p) == History(t', p')
    && forall v: nat :: 1 <= v <= |History(t, p)| ==>
      (Key(p, v) in t.blob <==> Key(p', v) in t'.blob) &&
      (Key(p, v) in t.blob ==> t.blob[Key(p, v)] == t'.blob[Key(p', v)])
  }

  lemma DenseCounter(t: Tables, p: Path)
    requires Recorded(t)
    ensures MaxVersion(t.version, p) == CurrentVersion(t, p) == |History(t, p)|
  {
    var n := MaxVersion(t.version, p);
    if p in t.head {
      assert Key(p, t.head[p]) in t.version;
    } else if p in t.meta {
      assert MetaOk(t, p);
    }
  }

  /** A counter row that is missing is rebuilt: over any rows the next version is new and follows
      the largest one, and in tables that were in order it is the one that was lost. */
  lemma LostCounterIsRebuilt(t: Tables, p: Path)
    ensures p !in t.head ==> forall v: nat :: Key(p, v) in t.version ==> v <= CurrentVersion(t, p)
    ensures p !in t.head && p in t.meta ==> t.meta[p].version <= CurrentVersion(t, p)
    ensures p !in t.head && CurrentVersion(t, p) > 0 ==>
      Key(p, CurrentVersion(t, p)) in t.version || (p in t.meta && t.meta[p].version == CurrentVersion(t, p))
    ensures Recorded(t) ==> CurrentVersion(t.(head := t.head - {p}), p) == |History(t, p)|
  {
    if Recorded(t) {
      DenseCounter(t, p);
      if p in t.meta { assert MetaOk(t, p); }
    }
  }

  /** The three ways the services append: a file with its blob, an empty file without one,
      and a deletion. */
  predicate Appendable(live: Option<Meta>, rec: Record, data: Option<Data>)
  {
    if rec.change.Deleted? then live == None && rec.hash == NoDigest && data == None
    else
      && rec.hash.Sha256? && rec.size == |rec.hash.content|
      && live == Some(Meta(false, rec.size, rec.mtime, rec.hash, 0))
      && (data == Some(rec.hash.content) || (data == None && rec.hash.content == []))
  }

  /** Appending a version always succeeds and takes the next number. */
  lemma AppendSucceeds(t: Tables, p: Path, live: Option<Meta>, rec: Record, data: Option<Data>)
    requires Recorded(t)
    ensures var r := AppendTx(t, p, live, rec, data);
      r.Some? && r.value.1 == |History(t, p)| + 1
  {
    DenseCounter(t, p);
    assert Key(p, |History(t, p)| + 1) !in t.version;
  }

  lemma OneMoreVersion(t: Tables, p: Path, v: nat, t': Tables)
    requires Dense(t) && v == (if p in t.head then t.head[p] else 0) + 1
    requires t'.head == t.head[p := v] && t'.version.Keys == t.version.Keys + {Key(p, v)}
    ensures Dense(t')
  {
    forall k ensures k in t'.version <==> k.path in t'.head && 1 <= k.version <= t'.head[k.path] {
      if k.path == p { assert k == Key(p, k.version); }
    }
  }

  lemma AppendKeepsDense(t: Tables, p: Path, live: Option<Meta>, rec: Record, data: Option<Data>)
    requires Recorded(t)
    requires AppendTx(t, p, live, rec, data).Some?
    ensures Dense(AppendTx(t, p, live, rec, data).value.0)
  {
    DenseCounter(t, p);
    var (t', v) := AppendTx(t, p, live, rec, data).value;
    OneMoreVersion(t, p, v, t');
  }

  lemma AppendStaysDense(t: Tables, p: Path, live: Option<Meta>, rec: Record, data: Option<Data>)
    requires Recorded(t)
    requires AppendTx(t, p, live, rec, data).Some?
    ensures var t' := AppendTx(t, p, live, rec, data).value.0;
      Dense(t')
      && History(t', p) == History(t, p) + [rec]
      && forall q :: q != p ==> History(t', q) == History(t, q)
  {
    DenseCounter(t, p);
    AppendKeepsDense(t, p, live, rec, data);
    var (t', v) := AppendTx(t, p, live, rec, data).value;
    assert History(t', p) == History(t, p) + [rec];
    forall q | q != p ensures History(t', q) == History(t, q) { }
  }

  lemma AppendStaysFaithful(t: Tables, p: Path, live: Option<Meta>, rec: Record, data: Option<Data>)
    requires Recorded(t) && Appendable(live, rec, data)
    requires AppendTx(t, p, live, rec, data).Some?
    ensures Faithful(AppendTx(t, p, live, rec, data).value.0)
  {
    var (t', v) := AppendTx(t, p, live, rec, data).value;
    assert Key(p, v) !in t.blob;
    forall k | k in t'.version ensures RecordOk(t', k) {
      if k != Key(p, v) { assert RecordOk(t, k); }
    }
  }

  /** A path without a live row was deleted last, one with a live row shows its last version. */
  ghost predicate RowsOk(t: Tables, q: Path)
    requires Dense(t)
  {
    && (q in t.meta ==> MetaOk(t, q))
    && (q in t.head && q !in t.meta ==> t.version[Key(q, t.head[q])].change.Deleted?)
  }

  lemma OtherRowsStayOk(t: Tables, t': Tables, q: Path)
    requires Recorded(t) && Dense(t')
    requires (q in t'.meta <==> q in t.meta) && (q in t'.head <==> q in t.head)
    requires q in t.meta ==> t'.meta[q] == t.meta[q]
    requires q in t.head ==> t'.head[q] == t.head[q] && t'.version[Key(q, t.head[q])] == t.version[Key(q, t.head[q])]
    ensures RowsOk(t', q)
  {
    assert q in t.meta ==> MetaOk(t, q);
  }

  lemma OwnRowsAreOk(t': Tables, p: Path, v: nat, live: Option<Meta>, rec: Record, data: Option<Data>)
    requires Dense(t') && Appendable(live, rec, data)
    requires p in t'.head && t'.head[p] == v && t'.version[Key(p, v)] == rec
    requires p in t'.meta <==> live.Some?
    requires live.Some? ==> t'.meta[p] == live.value.(version := v)
    ensures RowsOk(t', p)
  { }

  lemma RowsMakeRecorded(t: Tables)
    requires Dense(t) && Faithful(t) && forall q :: RowsOk(t, q)
    ensures Recorded(t)
  {
    forall q | q in t.meta ensures MetaOk(t, q) { assert RowsOk(t, q); }
    forall q | q in t.head && q !in t.meta ensures t.version[Key(q, t.head[q])].change.Deleted? {
      assert RowsOk(t, q);
    }
  }

  lemma AppendLeavesRowsOk(
      t: Tables, p: Path, live: Option<Meta>, rec: Record, data: Option<Data>, t': Tables, v: nat, q: Path)
    requires Recorded(t) && Appendable(live, rec, data) && AppendTx(t, p, live, rec, data) == Some((t', v))
    requires Dense(t')
    ensures RowsOk(t', q)
  {
    if q == p {
      OwnRowsAreOk(t', p, v, live, rec, data);
    } else {
      assert q in t.head ==> Key(q, t.head[q]) in t.version;
      OtherRowsStayOk(t, t', q);
    }
  }

  lemma AppendStaysRecorded(t: Tables, p: Path, live: Option<Meta>, rec: Record, data: Option<Data>)
    requires Recorded(t) && Appendable(live, rec, data)
    requires AppendTx(t, p, live, rec, data).Some?
    ensures Recorded(AppendTx(t, p, live, rec, data).value.0)
  {
    AppendKeepsDense(t, p, live, rec, data);
    AppendStaysFaithful(t, p, live, rec, data);
    var (t', v) := AppendTx(t, p, live, rec, data).value;
    forall q ensures RowsOk(t', q) {
      AppendLeavesRowsOk(t, p, live, rec, data, t', v, q);
    }
    RowsMakeRecorded(t');
  }

  lemma AppendFrame(t: Tables, p: Path, t': Tables, v: nat, data: Option<Data>, q: Path)
    requires Dense(t) && Dense(t') && q != p
    requires History(t', q) == History(t, q)
    requires t'.blob == if data.Some? then t.blob[Key(p, v) := data.value] else t.blob
    ensures SameFile(t, q, t', q)
  { }

  /** The effect of one append, seen per file. */
  ghost predicate Extended(t: Tables, p: Path, rec: Record, data: Option<Data>, t': Tables)
    requires Dense(t) && Dense(t')
  {
    && History(t', p) == History(t, p) + [rec]
    && (forall q :: q != p ==> SameFile(t, q, t', q))
    && t'.blob == (if data.Some? then t.blob[Key(p, |History(t, p)| + 1) := data.value] else t.blob)
  }

  /** Appending adds one record and its blob at the end and leaves every other path alone. */
  lemma AppendExtends(t: Tables, p: Path, live: Option<Meta>, rec: Record, data: Option<Data>)
    requires Recorded(t) && Appendable(live, rec, data)
    ensures AppendTx(t, p, live, rec, data).Some?
    ensures AppendTx(t, p, live, rec, data).value.1 == |History(t, p)| + 1
    ensures Recorded(AppendTx(t, p, live, rec, data).value.0)
    ensures Extended(t, p, rec, data, AppendTx(t, p, live, rec, data).value.0)
    ensures Key(p, |History(t, p)| + 1) !in t.blob
  {
    AppendSucceeds(t, p, live, rec, data);
    AppendStaysDense(t, p, live, rec, data);
    AppendStaysRecorded(t, p, live, rec, data);
    AppendBlobs(t, p, live, rec, data);
    var (t', v) := AppendTx(t, p, live, rec, data).value;
    forall q | q != p ensures SameFile(t, q, t', q) {
      AppendFrame(t, p, t', v, data, q);
    }
  }

  lemma AppendBlobs(t: Tables, p: Path, live: Option<Meta>, rec: Record, data: Option<Data>)
    requires Recorded(t)
    requires AppendTx(t, p, live, rec, data).Some?
    ensures var (t', v) := AppendTx(t, p, live, rec, data).value;
      t'.blob == if data.Some? then t.blob[Key(p, v) := data.value] else t.blob
    ensures Key(p, AppendTx(t, p, live, rec, data).value.1) !in t.blob
  {
    DenseCounter(t, p);
    assert Key(p, |History(t, p)| + 1) !in t.version;
  }

  // ---------- renaming a tree ----------

  /** No stored path is a mere letter-case variant of a path in the tree at from. */
  ghost predicate NoTwins(t: Tables, from: Path)
  {
    forall p :: p in t.meta || p in t.head ==> !CaseTwin(from, p)
  }

  lemma RowsRelocate(t: Tables, from: Path, to: Path)
    requires NoTwins(t, from)
    ensures forall p :: p in t.meta || p in t.head ==> PathImage(from, to)(p) == Relocate(from, to, p)
  {
    forall p | p in t.meta || p in t.head ensures RowImage(from, to, p) == Relocate(from, to, p) {
      UpdateFollowsTree(from, to, p);
    }
  }

  /** Moving dense histories is refused exactly when two files, or two meta rows, would share
      a path: histories of different files always collide at version 1. */
  lemma MoveRefusal(t: Tables, image: Path -> Path)
    requires Recorded(t)
    ensures MoveTables(t, image).Some? <==> Injective(t.head.Keys, image) && Injective(t.meta.Keys, image)
  {
    var ki := ByPath(image);
    if Injective(t.head.Keys, image) {
      forall a, b | a in t.version && b in t.version && ki(a) == ki(b) ensures a == b {
        assert image(a.path) == image(b.path);
      }
    }
    if Injective(t.version.Keys, ki) {
      forall a, b | a in t.head && b in t.head && image(a) == image(b) ensures a == b {
        assert Key(a, 1) in t.version && Key(b, 1) in t.version;
        assert ki(Key(a, 1)) == ki(Key(b, 1));
      }
    }
  }

  /** In terms of the tree: some path of the tree and its destination are both taken. */
  lemma TreeCollision(rows: set<Path>, image: Path -> Path, from: Path, to: Path)
    requires Unnested(from, to)
    requires forall p :: p in rows ==> image(p) == Relocate(from, to, p)
    ensures Injective(rows, image)
      <==> forall p :: p in rows && AtOrUnder(from, p) ==> Relocate(from, to, p) !in rows
  {
    if p :| p in rows && AtOrUnder(from, p) && Relocate(from, to, p) in rows {
      var q := Relocate(from, to, p);
      RelocatedLiesInTarget(from, to, p);
      if AtOrUnder(from, q) {
        AncestorsAreNested(from, to, q);
        assert false;
      }
      assert image(p) == image(q) && p != q;
    } else {
      forall a, b | a in rows && b in rows && image(a) == image(b) ensures a == b {
        if AtOrUnder(from, a) && AtOrUnder(from, b) {
          assert (to + a[|from|..])[|to|..] == (to + b[|from|..])[|to|..];
          assert a == a[..|from|] + a[|from|..] && b == b[..|from|] + b[|from|..];
          assert a[..|from|] == from && b[..|from|] == from;
        }
      }
    }
  }

  /** A rename is refused exactly when two files, live or deleted, or two meta rows would share a
      path. If no stored path is a case variant of the tree, that is when some file of the tree
      would land on a path that has a history, or some meta row on a path that has one. */
  lemma RenameRefusal(t: Tables, from: Path, to: Path)
    requires Recorded(t)
    ensures RenameTx(t, from, to).Some? <==>
      Injective(t.head.Keys, PathImage(from, to)) && Injective(t.meta.Keys, PathImage(from, to))
    ensures NoTwins(t, from) && Unnested(from, to) ==>
      (RenameTx(t, from, to).Some? <==>
        && (forall p :: p in t.head && AtOrUnder(from, p) ==> Relocate(from, to, p) !in t.head)
        && (forall p :: p in t.meta && AtOrUnder(from, p) ==> Relocate(from, to, p) !in t.meta))
  {
    var image := PathImage(from, to);
    MoveRefusal(t, image);
    if NoTwins(t, from) && Unnested(from, to) {
      RowsRelocate(t, from, to);
      TreeCollision(t.head.Keys, image, from, to);
      TreeCollision(t.meta.Keys, image, from, to);
    }
  }

  lemma MoveStaysDense(t: Tables, image: Path -> Path)
    requires Dense(t) && MoveTables(t, image).Some?
    ensures Dense(MoveTables(t, image).value)
  {
    var ki := ByPath(image);
    var t' := MoveTables(t, image).value;
    forall q | q in t'.head ensures t'.head[q] >= 1 {
      var p :| p in t.head && image(p) == q;
    }
    forall k | k in t'.version ensures k.path in t'.head && 1 <= k.version <= t'.head[k.path] {
      var r :| r in t.version && ki(r) == k;
      assert image(r.path) in t'.head;
    }
    forall k: Key | k.path in t'.head && 1 <= k.version <= t'.head[k.path] ensures k in t'.version {
      var p :| p in t.head && image(p) == k.path;
      assert Key(p, k.version) in t.version;
      assert ki(Key(p, k.version)) in t'.version;
    }
  }

  lemma MoveStaysFaithful(t: Tables, image: Path -> Path)
    requires Faithful(t) && MoveTables(t, image).Some?
    ensures Faithful(MoveTables(t, image).value)
  {
    var ki := ByPath(image);
    var t' := MoveTables(t, image).value;
    forall k | k in t'.blob ensures k in t'.version {
      var r :| r in t.blob && ki(r) == k;
      assert r in t.version;
    }
    forall k | k in t'.version ensures RecordOk(t', k) {
      var r :| r in t.version && ki(r) == k;
      assert RecordOk(t, r);
      if k in t'.blob {
        var b :| b in t.blob && ki(b) == k;
        assert b in t.version && b == r;
      } else {
        assert r !in t.blob;
      }
    }
  }

  lemma MoveKeepsFile(t: Tables, image: Path -> Path, p: Path)
    requires Dense(t) && Faithful(t) && MoveTables(t, image).Some?
    requires Dense(MoveTables(t, image).value)
    requires p in t.head
    ensures SameFile(t, p, MoveTables(t, image).value, image(p))
  {
    var ki := ByPath(image);
    var t' := MoveTables(t, image).value;
    var q := image(p);
    assert t'.head[q] == t.head[p];
    forall v: nat | 1 <= v <= t.head[p]
      ensures Key(q, v) in t'.version && t'.version[Key(q, v)] == t.version[Key(p, v)]
      ensures Key(p, v) in t.blob <==> Key(q, v) in t'.blob
      ensures Key(p, v) in t.blob ==> t.blob[Key(p, v)] == t'.blob[Key(q, v)]
    {
      assert Key(p, v) in t.version;
      assert ki(Key(p, v)) == Key(q, v);
      if Key(q, v) in t'.blob {
        var b :| b in t.blob && ki(b) == Key(q, v);
        assert b in t.version && ki(b) == ki(Key(p, v));
      }
    }
    assert History(t, p) == History(t', q);
  }

  lemma MoveStaysRecorded(t: Tables, image: Path -> Path)
    requires Recorded(t) && MoveTables(t, image).Some?
    ensures Recorded(MoveTables(t, image).value)
  {
    var ki := ByPath(image);
    var t' := MoveTables(t, image).value;
    MoveStaysDense(t, image);
    MoveStaysFaithful(t, image);
    forall q | q in t'.meta ensures MetaOk(t', q) {
      var p :| p in t.meta && image(p) == q;
      assert MetaOk(t, p);
      if !t.meta[p].isDir {
        assert t'.head[image(p)] == t.head[p];
        assert ki(Key(p, t.head[p])) == Key(q, t'.head[q]);
      }
    }
    forall q | q in t'.head && q !in t'.meta ensures t'.version[Key(q, t'.head[q])].change.Deleted? {
      var p :| p in t.head && image(p) == q;
      assert p in t.meta ==> image(p) in t'.meta;
      assert ki(Key(p, t.head[p])) == Key(q, t'.head[q]);
    }
  }

  /** What a committed move does, seen per file: each keeps its records, blobs and meta row at
      its new place, no row appears from nowhere, and the tables stay well formed. */
  ghost predicate MovedAlong(t: Tables, image: Path -> Path, t': Tables)
    requires Dense(t) && Dense(t')
  {
    && (forall p {:trigger image(p)} :: p in t.head ==> image(p) in t'.head && SameFile(t, p, t', image(p)))
    && (forall q :: q in t'.head ==> exists p {:trigger image(p)} :: p in t.head && image(p) == q)
    && (forall p {:trigger image(p)} :: p in t.meta ==> image(p) in t'.meta && t'.meta[image(p)] == t.meta[p])
    && (forall q :: q in t'.meta ==> exists p {:trigger image(p)} :: p in t.meta && image(p) == q)
  }

  lemma MoveMovesFiles(t: Tables, image: Path -> Path)
    requires Recorded(t) && MoveTables(t, image).Some?
    ensures Recorded(MoveTables(t, image).value)
    ensures MovedAlong(t, image, MoveTables(t, image).value)
  {
    var t' := MoveTables(t, image).value;
    MoveStaysRecorded(t, image);
    forall p | p in t.head ensures image(p) in t'.head && SameFile(t, p, t', image(p)) {
      MoveKeepsFile(t, image, p);
    }
    forall q | q in t'.head ensures exists p {:trigger image(p)} :: p in t.head && image(p) == q {
      var p :| p in t.head && image(p) == q;
    }
    forall q | q in t'.meta ensures exists p {:trigger image(p)} :: p in t.meta && image(p) == q {
      var p :| p in t.meta && image(p) == q;
    }
  }

  /** The same in terms of the tree. */
  ghost predicate Relocated(t: Tables, from: Path, to: Path, t': Tables)
    requires Dense(t) && Dense(t')
  {
    && (forall p :: p in t.head ==>
      Relocate(from, to, p) in t'.head && SameFile(t, p, t', Relocate(from, to, p)))
    && (forall q :: q in t'.head ==> exists p :: p in t.head && Relocate(from, to, p) == q)
    && (forall p :: p in t.meta ==>
      Relocate(from, to, p) in t'.meta && t'.meta[Relocate(from, to, p)] == t.meta[p])
    && (forall q :: q in t'.meta ==> exists p :: p in t.meta && Relocate(from, to, p) == q)
  }

  /** A committed rename moves every file to where the UPDATE sends its path, and exactly the
      tree, if no stored path is a case variant of it. */
  lemma RenameMovesFiles(t: Tables, from: Path, to: Path)
    requires Recorded(t) && RenameTx(t, from, to).Some?
    ensures Recorded(RenameTx(t, from, to).value)
    ensures MovedAlong(t, PathImage(from, to), RenameTx(t, from, to).value)
    ensures NoTwins(t, from) ==> Relocated(t, from, to, RenameTx(t, from, to).value)
  {
    var image := PathImage(from, to);
    MoveMovesFiles(t, image);
    if NoTwins(t, from) {
      RowsRelocate(t, from, to);
      RelocatedByImage(t, image, from, to, RenameTx(t, from, to).value);
    }
  }

  lemma RelocatedByImage(t: Tables, image: Path -> Path, from: Path, to: Path, t': Tables)
    requires Dense(t) && Dense(t') && MovedAlong(t, image, t')
    requires forall p :: p in t.meta || p in t.head ==> image(p) == Relocate(from, to, p)
    ensures Relocated(t, from, to, t')
  {
    forall p | p in t.head
      ensures Relocate(from, to, p) in t'.head && SameFile(t, p, t', Relocate(from, to, p))
    {
      assert image(p) == Relocate(from, to, p);
    }
    forall p | p in t.meta
      ensures Relocate(from, to, p) in t'.meta && t'.meta[Relocate(from, to, p)] == t.meta[p]
    {
      assert image(p) == Relocate(from, to, p);
    }
  }

  lemma MovedBack<K(!new), V>(m: map<K, V>, there: K -> K, back: K -> K)
    requires Injective(m.Keys, there)
    requires forall k {:trigger there(k)} :: k in m ==> back(there(k)) == k
    ensures Injective(Moved(m, there).Keys, back)
    ensures Moved(Moved(m, there), back) == m
  {
    var mid := Moved(m, there);
    forall a, b | a in mid && b in mid && back(a) == back(b) ensures a == b {
      var x :| x in m && there(x) == a;
      var y :| y in m && there(y) == b;
    }
    var out := Moved(mid, back);
    forall k | k in m ensures k in out && out[k] == m[k] {
      assert there(k) in mid && back(there(k)) in out;
    }
    forall k | k in out ensures k in m {
      var a :| a in mid && back(a) == k;
      var x :| x in m && there(x) == a;
    }
  }

  lemma MoveRoundTrip(t: Tables, there: Path -> Path, back: Path -> Path)
    requires Recorded(t) && MoveTables(t, there).Some?
    requires forall p :: p in t.meta || p in t.head ==> back(there(p)) == p
    ensures MoveTables(MoveTables(t, there).value, back) == Some(t)
  {
    var kt, kb := ByPath(there), ByPath(back);
    forall k | k in t.version || k in t.blob ensures kb(kt(k)) == k {
      assert k in t.version && k.path in t.head;
    }
    MovedBack(t.meta, there, back);
    MovedBack(t.head, there, back);
    MovedBack(t.version, kt, kb);
    MovedBack(t.blob, kt, kb);
  }

  /** A stored path is lost by a rename to an empty place and back exactly if it is a case
      variant of one of the two trees when that tree moves. */
  lemma LostOnTheWay(from: Path, to: Path, p: Path)
    requires Unnested(from, to) && !AtOrUnder(to, p)
    ensures var q := RowImage(from, to, p);
      RowImage(to, from, q) == p <==> !CaseTwin(from, p) && !CaseTwin(to, q)
  {
    var q := RowImage(from, to, p);
    UpdateFollowsTree(from, to, p);
    UpdateFollowsTree(to, from, q);
    RelocateBack(from, to, p);
    if CaseTwin(from, p) {
      TwinGoes(from, to, p);
      TreeComesBack(from, to, p[|from|..]);
    } else if CaseTwin(to, q) {
      TwinGoes(to, from, q);
      if AtOrUnder(from, p) { RelocatedLiesInTarget(from, to, p); }
      PickedRows(from, p);
      assert q == p;
    }
  }

  lemma TwinGoes(from: Path, to: Path, p: Path)
    requires CaseTwin(from, p)
    ensures |from| < |p| && p[|from|] == '/' && RowImage(from, to, p) == to + p[|from|..]
    ensures AtOrUnder(to, RowImage(from, to, p)) && p[..|from|] != from
  {
    PickedRows(from, p);
    var q := to + p[|from|..];
    assert q[..|to|] == to && q[|to|] == '/';
  }

  lemma TreeComesBack(from: Path, to: Path, rest: string)
    requires rest != "" && rest[0] == '/'
    ensures RowImage(to, from, to + rest) == from + rest
  {
    var q := to + rest;
    assert q[..|to|] == to && q[|to|] == '/' && q[|to|..] == rest;
    PickedRows(to, q);
    UpdateFollowsTree(to, from, q);
  }

  /** Renaming a tree into an empty place and back restores all four tables if and only if
      neither rename meets a stored case variant of the tree it moves. */
  lemma RenameRoundTrip(t: Tables, from: Path, to: Path)
    requires Recorded(t) && Unnested(from, to) && RenameTx(t, from, to).Some?
    requires forall p :: p in t.meta || p in t.head ==> !AtOrUnder(to, p)
    ensures RenameTx(RenameTx(t, from, to).value, to, from) == Some(t) <==>
      NoTwins(t, from) && NoTwins(RenameTx(t, from, to).value, to)
  {
    if NoTwins(t, from) && NoTwins(RenameTx(t, from, to).value, to) {
      TreeReturns(t, from, to);
    } else {
      TwinDoesNotReturn(t, from, to);
    }
  }

  lemma TreeReturns(t: Tables, from: Path, to: Path)
    requires Recorded(t) && Unnested(from, to) && RenameTx(t, from, to).Some?
    requires forall p :: p in t.meta || p in t.head ==> !AtOrUnder(to, p)
    requires NoTwins(t, from) && NoTwins(RenameTx(t, from, to).value, to)
    ensures RenameTx(RenameTx(t, from, to).value, to, from) == Some(t)
  {
    var there, back := PathImage(from, to), PathImage(to, from);
    MoveMovesFiles(t, there);
    forall p | p in t.meta || p in t.head ensures back(there(p)) == p {
      assert there(p) in RenameTx(t, from, to).value.meta || there(p) in RenameTx(t, from, to).value.head;
      LostOnTheWay(from, to, p);
    }
    MoveRoundTrip(t, there, back);
  }

  lemma TwinDoesNotReturn(t: Tables, from: Path, to: Path)
    requires Recorded(t) && Unnested(from, to) && RenameTx(t, from, to).Some?
    requires forall p :: p in t.meta || p in t.head ==> !AtOrUnder(to, p)
    requires !(NoTwins(t, from) && NoTwins(RenameTx(t, from, to).value, to))
    ensures RenameTx(RenameTx(t, from, to).value, to, from) != Some(t)
  {
    var t' := RenameTx(t, from, to).value;
    var p := SomeTwin(t, from, to);
    if RenameTx(t', to, from) == Some(t) {
      NothingReturns(t, from, to, p);
      MovedKeys(t, PathImage(from, to));
      MovedKeys(t', PathImage(to, from));
      if p in t.meta {
        BothWays(t.meta.Keys, PathImage(from, to), t'.meta.Keys, PathImage(to, from), p);
      } else {
        BothWays(t.head.Keys, PathImage(from, to), t'.head.Keys, PathImage(to, from), p);
      }
    }
  }

  /** A row of tables that were moved there and back comes from one of the original rows. */
  lemma BothWays(rows: set<Path>, there: Path -> Path, rows': set<Path>, back: Path -> Path, p: Path)
    requires rows' == Images(rows, there) && rows == Images(rows', back) && p in rows
    ensures exists q {:trigger there(q)} :: q in rows && back(there(q)) == p
  {
    var r := Source(rows', back, p);
    var q := Source(rows, there, r);
  }

  lemma KeysOfMoved<K(!new), V>(m: map<K, V>, image: K -> K)
    requires Injective(m.Keys, image)
    ensures Moved(m, image).Keys == Images(m.Keys, image)
  { }

  lemma MovedKeys(t: Tables, image: Path -> Path)
    requires MoveTables(t, image).Some?
    ensures var t' := MoveTables(t, image).value;
      t'.meta.Keys == Images(t.meta.Keys, image) && t'.head.Keys == Images(t.head.Keys, image)
  {
    KeysOfMoved(t.meta, image);
    KeysOfMoved(t.head, image);
  }

  /** A row that one of the two renames takes along wrongly. */
  lemma SomeTwin(t: Tables, from: Path, to: Path) returns (p: Path)
    requires Recorded(t) && RenameTx(t, from, to).Some?
    requires !(NoTwins(t, from) && NoTwins(RenameTx(t, from, to).value, to))
    ensures p in t.meta || p in t.head
    ensures CaseTwin(from, p) || CaseTwin(to, PathImage(from, to)(p))
  {
    var image := PathImage(from, to);
    if !NoTwins(t, from) {
      p :| (p in t.meta || p in t.head) && CaseTwin(from, p);
    } else {
      MoveMovesFiles(t, image);
      var t' := RenameTx(t, from, to).value;
      var q :| (q in t'.meta || q in t'.head) && CaseTwin(to, q);
      if q in t'.meta {
        p :| p in t.meta && image(p) == q;
      } else {
        p :| p in t.head && image(p) == q;
      }
    }
  }

  lemma ImageLands(from: Path, to: Path, q: Path)
    ensures Picked(from, q) ==> AtOrUnder(to, RowImage(from, to, q))
    ensures !Picked(from, q) ==> RowImage(from, to, q) == q
  {
    if CaseTwin(from, q) {
      TwinGoes(from, to, q);
    } else if Picked(from, q) {
      UpdateFollowsTree(from, to, q);
      RelocatedLiesInTarget(from, to, q);
    }
  }

  lemma NotBackAt(from: Path, to: Path, p: Path, q: Path)
    requires Unnested(from, to) && !AtOrUnder(to, p) && !AtOrUnder(to, q)
    requires CaseTwin(from, p) || CaseTwin(to, RowImage(from, to, p))
    ensures RowImage(to, from, RowImage(from, to, q)) != p
  {
    var r := RowImage(from, to, q);
    ImageLands(from, to, q);
    ImageLands(to, from, r);
    ImageLands(from, to, p);
    if AtOrUnder(from, p) { PickedRows(from, p); }
  }

  /** No row returns to the place of a twin. */
  lemma NothingReturns(t: Tables, from: Path, to: Path, p: Path)
    requires Recorded(t) && Unnested(from, to) && RenameTx(t, from, to).Some?
    requires forall q :: q in t.meta || q in t.head ==> !AtOrUnder(to, q)
    requires p in t.meta || p in t.head
    requires CaseTwin(from, p) || CaseTwin(to, PathImage(from, to)(p))
    ensures forall q :: q in t.meta || q in t.head ==> PathImage(to, from)(PathImage(from, to)(q)) != p
  {
    forall q | q in t.meta || q in t.head ensures RowImage(to, from, RowImage(from, to, q)) != p {
      NotBackAt(from, to, p, q);
    }
  }

  /** Without the no-twin condition a rename takes foreign rows along: any stored case twin
      leaves its place, unless it already lies in a target of the same length. */
  lemma TwinIsDraggedAlong(t: Tables, from: Path, to: Path, p: Path)
    requires p in t.head && CaseTwin(from, p) && |from| <= |p| && p[..|from|] != to
    requires RenameTx(t, from, to).Some?
    ensures RowImage(from, to, p) in RenameTx(t, from, to).value.head
    ensures RowImage(from, to, p) != p
  {
    UpdateFollowsTree(from, to, p);
    assert PathImage(from, to)(p) in RenameTx(t, from, to).value.head;
  }
}
