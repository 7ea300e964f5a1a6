/** The version store: its SQL statements one by one, and the retried transaction around them. */
module VersionStore {
  import opened Wrappers
  import opened Bytes
  import opened Paths
  import opened Tables

  /** One UPDATE of the key column of a table, row by row; the first collision aborts. */
  method MoveRows<K(==, !new), V>(rows: map<K, V>, image: K -> K) returns (ok: bool, out: map<K, V>)
    ensures ok <==> Injective(rows.Keys, image)
    ensures ok ==> out == Moved(rows, image)
  {
    out := map[];
    var rest := rows.Keys;
    while rest != {}
      invariant rest <= rows.Keys
      invariant Injective(rows.Keys - rest, image)
      invariant forall r {:trigger image(r)} :: r in rows && r !in rest ==> image(r) in out && out[image(r)] == rows[r]
      invariant forall k :: k in out ==> exists r {:trigger image(r)} :: r in rows && r !in rest && image(r) == k
      decreases |rest|
    {
      var r :| r in rest;
      var k := image(r);
      if k in out {
        ghost var other :| other in rows && other !in rest && image(other) == k;
        assert image(r) == image(other) && r != other;
        return false, out;
      }
      out := out[k := rows[r]];
      rest := rest - {r};
    }
    assert rows.Keys - rest == rows.Keys;
    return true, out;
  }

  class VersionStore {
    var meta: map<Path, Meta>
    var head: map<Path, nat>
    var version: map<Key, Record>
    var blob: map<Key, Data>

    ghost function Rows(): Tables
      reads this
    {
      Tables(meta, head, version, blob)
    }

    constructor ()
      ensures Rows() == EMPTY
    {
      meta, head, version, blob := map[], map[], map[], map[];
    }

    method SelectMaxVersion(p: Path) returns (n: nat)
      ensures n == MaxVersion(version, p)
    {
      n := 0;
      var rest := version.Keys;
      while rest != {}
        invariant rest <= version.Keys
        invariant forall k :: k in version && k !in rest && k.path == p ==> k.version <= n
        invariant n == 0 || Key(p, n) in version
        decreases |rest|
      {
        var k :| k in rest;
        if k.path == p && k.version > n {
          n := k.version;
        }
        rest := rest - {k};
      }
      ghost var m := MaxVersion(version, p);
      assert m != 0 ==> Key(p, m) in version;
    }

    method GetLatestRecord(p: Path) returns (r: Option<(nat, Record)>)
      ensures var n := MaxVersion(version, p);
        r == if Key(p, n) in version then Some((n, version[Key(p, n)])) else None
    {
      var n := SelectMaxVersion(p);
      if Key(p, n) in version {
        return Some((n, version[Key(p, n)]));
      }
      return None;
    }

    method EnsureFileHeadTx(p: Path)
      modifies this`head
      ensures head == old(head)[p := CurrentVersion(old(Rows()), p)]
    {
      if p in head {
        return;
      }
      var versionMax := SelectMaxVersion(p);
      if p in meta && meta[p].version > versionMax {
        versionMax := meta[p].version;
      }
      head := head[p := versionMax];
    }

    method NextVersionTx(p: Path) returns (v: nat)
      modifies this`head
      ensures v == CurrentVersion(old(Rows()), p) + 1
      ensures head == old(head)[p := v]
    {
      EnsureFileHeadTx(p);
      head := head[p := head[p] + 1];
      v := head[p];
    }

    method InsertSnapshotTx(p: Path, v: nat, rec: Record, data: Option<Data>) returns (ok: bool)
      modifies this`version, this`blob
      ensures ok <==> Key(p, v) !in old(version) && (data.Some? ==> Key(p, v) !in old(blob))
      ensures ok ==> version == old(version)[Key(p, v) := rec]
      ensures ok ==> blob == if data.Some? then old(blob)[Key(p, v) := data.value] else old(blob)
    {
      var key := Key(p, v);
      if key in version {
        return false;
      }
      version := version[key := rec];
      if data.None? {
        return true;
      }
      if key in blob {
        return false;
      }
      blob := blob[key := data.value];
      return true;
    }

    method RenamePathTreeTx(from: Path, to: Path) returns (ok: bool)
      modifies this
      ensures ok <==> RenameTx(old(Rows()), from, to).Some?
      ensures ok ==> Rows() == RenameTx(old(Rows()), from, to).value
    {
      var image := PathImage(from, to);
      var meta', head', version', blob';
      ok, meta' := MoveRows(meta, image);
      if !ok { return; }
      ok, head' := MoveRows(head, image);
      if !ok { return; }
      ok, version' := MoveRows(version, ByPath(image));
      if !ok { return; }
      ok, blob' := MoveRows(blob, ByPath(image));
      if !ok { return; }
      meta, head, version, blob := meta', head', version', blob';
    }

    /** The statements between BEGIN and COMMIT; ok is false on a constraint violation. */
    method RunBody(op: TxOp) returns (ok: bool, v: nat)
      modifies this
      ensures ok <==> Body(old(Rows()), op).Some?
      ensures ok ==> Body(old(Rows()), op) == Some((Rows(), v))
    {
      ok, v := true, 0;
      match op
      case Save(p, size, mtime, hash, change, data) =>
        v := NextVersionTx(p);
        meta := meta[p := Meta(false, size, mtime, hash, v)];
        ok := InsertSnapshotTx(p, v, Record(mtime, hash, size, change), data);
      case Remove(p, size, mtime) =>
        v := NextVersionTx(p);
        meta := meta - {p};
        ok := InsertSnapshotTx(p, v, Record(mtime, NoDigest, size, Deleted), None);
      case Rename(from, to) =>
        if from != to {
          ok := RenamePathTreeTx(from, to);
        }
    }

    /** One attempt: BEGIN, the body, COMMIT; anything but success is rolled back. */
    method Try(op: TxOp, outcome: Attempt) returns (ok: bool, v: nat)
      modifies this
      ensures ok <==> outcome.Clean? && Body(old(Rows()), op).Some?
      ensures ok ==> Body(old(Rows()), op) == Some((Rows(), v))
      ensures !ok ==> Rows() == old(Rows())
    {
      var meta0, head0, version0, blob0 := meta, head, version, blob;
      ok, v := RunBody(op);
      if !outcome.Clean? || !ok {
        ok := false;
        meta, head, version, blob := meta0, head0, version0, blob0;
      }
    }

    /** At most five attempts; only a busy database is tried again. The tables show the body's
        effect exactly once or not at all. */
    method WithWriteTx(op: TxOp, tx: seq<Attempt>) returns (r: Option<nat>)
      requires |tx| >= MAX_ATTEMPTS
      modifies this
      ensures var done := Transact(old(Rows()), op, tx);
        if done.Some? then r == Some(done.value.1) && Rows() == done.value.0
        else r == None && Rows() == old(Rows())
    {
      var attempt := 0;
      while attempt < MAX_ATTEMPTS
        invariant 0 <= attempt <= MAX_ATTEMPTS
        invariant Rows() == old(Rows())
        invariant Undisturbed(tx, MAX_ATTEMPTS) == Undisturbed(tx[attempt..], MAX_ATTEMPTS - attempt)
      {
        var ok, v := Try(op, tx[attempt]);
        if ok {
          return Some(v);
        }
        if !tx[attempt].Busy? {
          return None;
        }
        assert tx[attempt..][1..] == tx[attempt + 1..];
        attempt := attempt + 1;
      }
      return None;
    }
  }
}
