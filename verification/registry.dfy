/** The device registry: devices, their policies, and the actions queued for them. */
module Registry {
  import opened Wrappers
  import opened Sorting

  type Id = string

  datatype Config = Config(
    mountPath: string, syncRoots: seq<string>, conflictPolicy: string, readOnly: bool, autoConnect: bool,
    bandwidthLimit: int, logLevel: string, largeFileThreshold: int)

  datatype Policy = Policy(config: Config, revision: nat)

  /** profile stands for the descriptive columns that registering overwrites. */
  datatype Device = Device(profile: string, sessionId: string, revision: nat, requiresPull: bool)

  datatype Status = Pending | Delivered | Cancelled

  datatype Action = Action(
    device: Id, kind: string, payload: string, status: Status,
    requestedAt: int, deliveredAt: int, completedAt: int)

  datatype Db = Db(devices: map<Id, Device>, policies: map<Id, Policy>, actions: map<Id, Action>)

  /** Io is a statement that the database could not carry out. */
  datatype Error = Invalid | NotExist | Exists | FailedPrecondition | Io

  const PAGE: nat := 16

  // ---------- one statement or transaction each ----------

  /** Registering again keeps the policy revision, the pull flag and the session. */
  function Registered(db: Db, d: Id, profile: string, revision: nat): Result<Db, Error>
  {
    if d == "" then Err(Invalid)
    else
      var row := if d in db.devices then db.devices[d].(profile := profile) else Device(profile, "", revision, true);
      Ok(db.(devices := db.devices[d := row]))
  }

  function SessionUpdated(db: Db, d: Id, session: string): Result<Db, Error>
  {
    if d == "" then Err(Invalid)
    else if d !in db.devices then Err(NotExist)
    else Ok(db.(devices := db.devices[d := db.devices[d].(sessionId := session)]))
  }

  function PolicyPulled(db: Db, d: Id): Result<Db, Error>
  {
    if d !in db.devices then Err(NotExist)
    else Ok(db.(devices := db.devices[d := db.devices[d].(requiresPull := false)]))
  }

  function NewRevision(db: Db, d: Id, revision: nat): map<Id, Device>
    requires d in db.devices
  {
    db.devices[d := db.devices[d].(revision := revision, requiresPull := true)]
  }

  function PolicySet(db: Db, d: Id, config: Config, revision: nat): Result<Db, Error>
  {
    if d == "" then Err(Invalid)
    else if d !in db.devices then Err(NotExist)
    else Ok(db.(policies := db.policies[d := Policy(config, revision)], devices := NewRevision(db, d, revision)))
  }

  function PolicyReset(db: Db, d: Id, revision: nat): Result<Db, Error>
  {
    if d == "" then Err(Invalid)
    else if d !in db.devices then Err(NotExist)
    else Ok(db.(policies := db.policies - {d}, devices := NewRevision(db, d, revision)))
  }

  /** A statement or transaction that fails leaves the tables as they were. */
  function Unless(fault: bool, r: Result<Db, Error>): Result<Db, Error>
  {
    if fault then Err(Io) else r
  }

  function Effective(db: Db, d: Id, defaults: Config): Config
  {
    if d in db.policies then db.policies[d].config else defaults
  }

  /** Pending actions of one device and one kind are cancelled. */
  function CancelSimilar(actions: map<Id, Action>, d: Id, kind: string, now: int): map<Id, Action>
  {
    map id | id in actions ::
      if actions[id].device == d && actions[id].kind == kind && actions[id].status == Pending
      then actions[id].(status := Cancelled, completedAt := now)
      else actions[id]
  }

  function Enqueued(db: Db, d: Id, kind: string, payload: string, replace: bool, id: Id, now: int): Result<Db, Error>
  {
    if d == "" || kind == "" then Err(Invalid)
    else if id in db.actions then Err(Exists)
    else
      var kept := if replace then CancelSimilar(db.actions, d, kind, now) else db.actions;
      Ok(db.(actions := kept[id := Action(d, kind, payload, Pending, now, 0, 0)]))
  }

  function ActionsDelivered(db: Db, ids: seq<Id>, now: int): Db
  {
    db.(actions := map id | id in db.actions ::
        var a := db.actions[id];
        if id in ids && a.status == Pending
        then a.(status := Delivered, deliveredAt := if a.deliveredAt == 0 then now else a.deliveredAt)
        else a)
  }

  function PendingOf(db: Db, d: Id): set<Id>
  {
    set id | id in db.actions && db.actions[id].device == d && db.actions[id].status == Pending
  }

  predicate NewerFirst(actions: map<Id, Action>, a: Id, b: Id)
  {
    && a in actions && b in actions
    && (actions[a].requestedAt > actions[b].requestedAt
        || (actions[a].requestedAt == actions[b].requestedAt && NotAfter()(b, a)))
  }

  /** The newest pending actions of a device, as many as fit. */
  ghost predicate Page(db: Db, d: Id, limit: nat, page: seq<Id>)
  {
    && Distinct(page)
    && SetOf(page) <= PendingOf(db, d)
    && |page| == (if |PendingOf(db, d)| < limit then |PendingOf(db, d)| else limit)
    && (forall i, j :: 0 <= i < j < |page| ==> NewerFirst(db.actions, page[i], page[j]))
    && (forall id, k :: id in PendingOf(db, d) && id !in page && 0 <= k < |page| ==>
        NewerFirst(db.actions, page[k], id))
  }

  // ---------- what the statements do to each row ----------

  /** Rows of other tables and of other devices stay. */
  ghost predicate OnlyDevice(db: Db, d: Id, db': Db)
  {
    db'.policies == db.policies && db'.actions == db.actions && db'.devices - {d} == db.devices - {d}
  }

  /** A first registration stores the profile with the given revision and asks for a pull; a later
      one replaces the profile and nothing else. It fails exactly without an id. */
  lemma RegisteredRow(db: Db, d: Id, profile: string, revision: nat)
    ensures var r := Registered(db, d, profile, revision);
      if d == "" then r == Err(Invalid)
      else
        && r.Ok? && OnlyDevice(db, d, r.value) && d in r.value.devices
        && r.value.devices[d] ==
          if d !in db.devices then Device(profile, "", revision, true)
          else Device(profile, db.devices[d].sessionId, db.devices[d].revision, db.devices[d].requiresPull)
  { }

  /** A heartbeat stores its session and nothing else, a mark clears the flag and nothing else;
      both fail exactly for a device that is not there. */
  lemma SessionAndMark(db: Db, d: Id, session: string)
    ensures var r := SessionUpdated(db, d, session);
      if d == "" then r == Err(Invalid)
      else if d !in db.devices then r == Err(NotExist)
      else
        && r.Ok? && OnlyDevice(db, d, r.value) && d in r.value.devices
        && r.value.devices[d]
          == Device(db.devices[d].profile, session, db.devices[d].revision, db.devices[d].requiresPull)
    ensures var r := PolicyPulled(db, d);
      if d !in db.devices then r == Err(NotExist)
      else
        && r.Ok? && OnlyDevice(db, d, r.value) && d in r.value.devices
        && r.value.devices[d]
          == Device(db.devices[d].profile, db.devices[d].sessionId, db.devices[d].revision, false)
  { }

  /** Setting or resetting a policy changes the override of that device, its revision and its flag,
      and fails exactly for a device that is not there. */
  lemma PolicyRows(db: Db, d: Id, config: Option<Config>, revision: nat)
    ensures var r := if config.Some? then PolicySet(db, d, config.value, revision) else PolicyReset(db, d, revision);
      if d == "" then r == Err(Invalid)
      else if d !in db.devices then r == Err(NotExist)
      else
        && r.Ok? && r.value.actions == db.actions && r.value.devices - {d} == db.devices - {d}
        && d in r.value.devices
        && r.value.devices[d] == Device(db.devices[d].profile, db.devices[d].sessionId, revision, true)
        && r.value.policies - {d} == db.policies - {d}
        && (d in r.value.policies <==> config.Some?)
        && (config.Some? ==> r.value.policies[d] == Policy(config.value, revision))
  { }

  /** A page of the pending list has the latest requests: descending times, none of them earlier
      than that of an action left out, and at most sixteen in a heartbeat. */
  lemma PageIsLatest(db: Db, d: Id, limit: nat, page: seq<Id>)
    requires Page(db, d, limit, page)
    ensures forall i :: 0 <= i < |page| ==>
      page[i] in db.actions && db.actions[page[i]].device == d && db.actions[page[i]].status == Pending
    ensures forall i, j :: 0 <= i < j < |page| ==>
      db.actions[page[i]].requestedAt >= db.actions[page[j]].requestedAt
    ensures forall id, i ::
      && id in db.actions && db.actions[id].device == d && db.actions[id].status == Pending
      && id !in page && 0 <= i < |page| ==>
        db.actions[page[i]].requestedAt >= db.actions[id].requestedAt
    ensures limit == PAGE ==> |page| <= 16
  {
    forall i | 0 <= i < |page| ensures page[i] in PendingOf(db, d) { assert page[i] in SetOf(page); }
    forall id | id in db.actions && db.actions[id].device == d && db.actions[id].status == Pending
      ensures id in PendingOf(db, d)
    { }
  }

  /** The actions after a request: its row is new, pending, and as the caller says; the pending ones
      of its device and kind are cancelled if it replaces them; all others are as they were. */
  ghost predicate Queued(
      actions: map<Id, Action>, d: Id, kind: string, payload: string, replace: bool, id: Id, now: int,
      after: map<Id, Action>)
  {
    && after.Keys == actions.Keys + {id}
    && after[id] == Action(d, kind, payload, Pending, now, 0, 0)
    && forall x :: x in actions && x != id ==>
      var a := actions[x];
      after[x] ==
        if replace && a.device == d && a.kind == kind && a.status == Pending
        then Action(d, kind, a.payload, Cancelled, a.requestedAt, a.deliveredAt, now)
        else a
  }

  /** A request is refused exactly without a device or a kind, or under an id that is taken. One
      that does not replace adds its id to the pending ones of its device; no request changes the
      pending ones of another device. */
  lemma EnqueueAnswer(db: Db, d: Id, kind: string, payload: string, replace: bool, id: Id, now: int)
    ensures var r := Enqueued(db, d, kind, payload, replace, id, now);
      if d == "" || kind == "" then r == Err(Invalid)
      else if id in db.actions then r == Err(Exists)
      else
        && r.Ok? && r.value.devices == db.devices && r.value.policies == db.policies
        && Queued(db.actions, d, kind, payload, replace, id, now, r.value.actions)
        && (!replace ==> PendingOf(r.value, d) == PendingOf(db, d) + {id})
        && (forall other :: other != d ==> PendingOf(r.value, other) == PendingOf(db, other))
  {
    var r := Enqueued(db, d, kind, payload, replace, id, now);
    if r.Ok? {
      forall other | other != d ensures PendingOf(r.value, other) == PendingOf(db, other) { }
    }
  }

  // ---------- the registry object ----------

  /** A row of the pending list: the sort key and the id. */
  datatype Key = Key(requestedAt: int, id: Id)

  function NewestKeyFirst(): (Key, Key) -> bool
  {
    (a: Key, b: Key) => a.requestedAt > b.requestedAt || (a.requestedAt == b.requestedAt && NotAfter()(b.id, a.id))
  }

  lemma NewestKeyFirstIsTotal()
    ensures TotalPreorder(NewestKeyFirst())
  {
    NotAfterIsTotal();
    var before := NotAfter();
    forall a, b ensures NewestKeyFirst()(a, b) || NewestKeyFirst()(b, a) {
      assert before(a.id, b.id) || before(b.id, a.id);
    }
    forall a, b, c | NewestKeyFirst()(a, b) && NewestKeyFirst()(b, c) ensures NewestKeyFirst()(a, c) {
      assert before(c.id, b.id) && before(b.id, a.id) ==> before(c.id, a.id);
    }
  }

  function KeyOf(db: Db, id: Id): Key
    requires id in db.actions
  {
    Key(db.actions[id].requestedAt, id)
  }

  ghost predicate KeysOf(db: Db, ids: set<Id>, keys: seq<Key>)
  {
    && Distinct(keys)
    && (forall k :: k in keys ==> k.id in ids && k.id in db.actions && k == KeyOf(db, k.id))
    && (forall id :: id in ids ==> id in db.actions && KeyOf(db, id) in keys)
  }

  function Ids(keys: seq<Key>): (ids: seq<Id>)
    ensures |ids| == |keys|
    ensures forall i :: 0 <= i < |ids| ==> ids[i] == keys[i].id
  {
    if keys == [] then [] else [keys[0].id] + Ids(keys[1..])
  }

  lemma KeysPermuted(db: Db, ids: set<Id>, a: seq<Key>, b: seq<Key>)
    requires KeysOf(db, ids, a) && multiset(a) == multiset(b)
    ensures KeysOf(db, ids, b)
  {
    DistinctPermuted(a, b);
    forall k ensures k in a <==> k in b {
      assert k in multiset(a) <==> k in multiset(b);
    }
  }

  lemma KeysSize(db: Db, ids: set<Id>, keys: seq<Key>)
    requires KeysOf(db, ids, keys)
    ensures Distinct(Ids(keys)) && SetOf(Ids(keys)) == ids && |keys| == |ids|
  {
    var s := Ids(keys);
    forall i, j | 0 <= i < j < |s| ensures s[i] != s[j] {
      assert keys[i] in keys && keys[j] in keys;
    }
    forall id ensures id in s <==> id in ids {
      if id in s {
        var i :| 0 <= i < |s| && s[i] == id;
        assert keys[i] in keys;
      }
      if id in ids {
        var i :| 0 <= i < |keys| && keys[i] == KeyOf(db, id);
        assert s[i] == id;
      }
    }
    DistinctSize(s);
  }

  lemma IdsInOrder(db: Db, ids: set<Id>, keys: seq<Key>, i: nat, j: nat)
    requires KeysOf(db, ids, keys) && Sorted(keys, NewestKeyFirst()) && i < j < |keys|
    ensures NewerFirst(db.actions, Ids(keys)[i], Ids(keys)[j])
  {
    assert keys[i] in keys && keys[j] in keys;
    assert NewestKeyFirst()(keys[i], keys[j]);
  }

  /** The first keys in order make a page. */
  lemma FirstKeysPage(db: Db, d: Id, limit: nat, keys: seq<Key>, n: nat)
    requires KeysOf(db, PendingOf(db, d), keys) && Sorted(keys, NewestKeyFirst())
    requires n == if |keys| < limit then |keys| else limit
    ensures Page(db, d, limit, Ids(keys)[..n])
  {
    var ids := PendingOf(db, d);
    KeysSize(db, ids, keys);
    var all := Ids(keys);
    var page := all[..n];
    assert SetOf(page) <= SetOf(all);
    forall i, j | 0 <= i < j < |page| ensures NewerFirst(db.actions, page[i], page[j]) {
      IdsInOrder(db, ids, keys, i, j);
    }
    forall id, k | id in ids && id !in page && 0 <= k < |page| ensures NewerFirst(db.actions, page[k], id) {
      var j := NotInPrefix(all, n, id);
      IdsInOrder(db, ids, keys, k, j);
    }
  }

  lemma NotInPrefix<T>(s: seq<T>, n: nat, x: T) returns (j: nat)
    requires n <= |s| && x in SetOf(s) && x !in s[..n]
    ensures n <= j < |s| && s[j] == x
  {
    j :| 0 <= j < |s| && s[j] == x;
    assert forall i :: 0 <= i < n ==> s[i] == s[..n][i];
  }

  class DeviceRegistry {
    var devices: map<Id, Device>
    var policies: map<Id, Policy>
    var actions: map<Id, Action>

    ghost function Rows(): Db
      reads this
    {
      Db(devices, policies, actions)
    }

    constructor ()
      ensures Rows() == Db(map[], map[], map[])
    {
      devices, policies, actions := map[], map[], map[];
    }

    /** The row is read back; that read may fail though the statement took effect. */
    method Register(d: Id, profile: string, revision: nat, fault: bool, readFails: bool)
      returns (r: Result<Device, Error>)
      modifies this
      ensures match Unless(d != "" && fault, Registered(old(Rows()), d, profile, revision))
        case Ok(db) => Rows() == db && d in devices && r == if readFails then Err(Io) else Ok(devices[d])
        case Err(e) => Rows() == old(Rows()) && r == Err(e)
    {
      if d == "" {
        return Err(Invalid);
      }
      if fault {
        return Err(Io);
      }
      if d in devices {
        devices := devices[d := devices[d].(profile := profile)];
      } else {
        devices := devices[d := Device(profile, "", revision, true)];
      }
      r := Get(d, readFails);
    }

    method Get(d: Id, fault: bool) returns (r: Result<Device, Error>)
      ensures r == if fault then Err(Io) else if d in devices then Ok(devices[d]) else Err(NotExist)
    {
      if fault {
        return Err(Io);
      }
      if d !in devices {
        return Err(NotExist);
      }
      return Ok(devices[d]);
    }

    method UpdateHeartbeat(d: Id, session: string, fault: bool, readFails: bool) returns (r: Result<Device, Error>)
      modifies this
      ensures match Unless(d != "" && fault, SessionUpdated(old(Rows()), d, session))
        case Ok(db) => Rows() == db && d in devices && r == if readFails then Err(Io) else Ok(devices[d])
        case Err(e) => Rows() == old(Rows()) && r == Err(e)
    {
      if d == "" {
        return Err(Invalid);
      }
      if fault {
        return Err(Io);
      }
      if d !in devices {
        return Err(NotExist);
      }
      devices := devices[d := devices[d].(sessionId := session)];
      r := Get(d, readFails);
    }

    method MarkPolicyPulled(d: Id, fault: bool) returns (e: Option<Error>)
      modifies this
      ensures match Unless(fault, PolicyPulled(old(Rows()), d))
        case Ok(db) => Rows() == db && e == None
        case Err(x) => Rows() == old(Rows()) && e == Some(x)
    {
      if fault {
        return Some(Io);
      }
      if d !in devices {
        return Some(NotExist);
      }
      devices := devices[d := devices[d].(requiresPull := false)];
      return None;
    }

    method GetPolicy(d: Id, fault: bool) returns (r: Result<Policy, Error>)
      ensures r == if fault then Err(Io) else if d in policies then Ok(policies[d]) else Err(NotExist)
    {
      if fault {
        return Err(Io);
      }
      if d !in policies {
        return Err(NotExist);
      }
      return Ok(policies[d]);
    }

    /** The policy row is written first and rolled back when the device is unknown or a later
        statement fails. The row is read back after the commit; that read may fail. */
    method UpsertPolicy(d: Id, config: Config, revision: nat, fault: bool, readFails: bool)
      returns (r: Result<Policy, Error>)
      modifies this
      ensures match Unless(d != "" && fault, PolicySet(old(Rows()), d, config, revision))
        case Ok(db) => Rows() == db && r == if readFails then Err(Io) else Ok(Policy(config, revision))
        case Err(e) => Rows() == old(Rows()) && r == Err(e)
    {
      if d == "" {
        return Err(Invalid);
      }
      var before := policies;
      policies := policies[d := Policy(config, revision)];
      if fault {
        policies := before;
        return Err(Io);
      }
      if d !in devices {
        policies := before;
        return Err(NotExist);
      }
      devices := devices[d := devices[d].(revision := revision, requiresPull := true)];
      r := GetPolicy(d, readFails);
    }

    method ResetPolicy(d: Id, revision: nat, fault: bool) returns (e: Option<Error>)
      modifies this
      ensures match Unless(d != "" && fault, PolicyReset(old(Rows()), d, revision))
        case Ok(db) => Rows() == db && e == None
        case Err(x) => Rows() == old(Rows()) && e == Some(x)
    {
      if d == "" {
        return Some(Invalid);
      }
      var before := policies;
      policies := policies - {d};
      if fault {
        policies := before;
        return Some(Io);
      }
      if d !in devices {
        policies := before;
        return Some(NotExist);
      }
      devices := devices[d := devices[d].(revision := revision, requiresPull := true)];
      return None;
    }

    /** The cancellations are rolled back when a later statement or the commit fails. */
    method EnqueueAction(d: Id, kind: string, payload: string, replace: bool, id: Id, now: int, fault: bool)
      returns (r: Result<Action, Error>)
      modifies this
      ensures match Unless(d != "" && kind != "" && id !in old(actions) && fault,
                           Enqueued(old(Rows()), d, kind, payload, replace, id, now))
        case Ok(db) => Rows() == db && id in actions && r == Ok(actions[id])
        case Err(e) => Rows() == old(Rows()) && r == Err(e)
    {
      if d == "" || kind == "" {
        return Err(Invalid);
      }
      var before := actions;
      if replace {
        CancelPending(d, kind, now);
      }
      if id in actions {
        actions := before;
        return Err(Exists);
      }
      if fault {
        actions := before;
        return Err(Io);
      }
      actions := actions[id := Action(d, kind, payload, Pending, now, 0, 0)];
      return Ok(actions[id]);
    }

    method CancelPending(d: Id, kind: string, now: int)
      modifies this`actions
      ensures actions == CancelSimilar(old(actions), d, kind, now)
    {
      var rest := actions.Keys;
      while rest != {}
        invariant rest <= actions.Keys == old(actions).Keys
        invariant forall id :: id in actions ==>
          actions[id] == if id in rest then old(actions)[id] else CancelSimilar(old(actions), d, kind, now)[id]
        decreases |rest|
      {
        var id :| id in rest;
        rest := rest - {id};
        if actions[id].device == d && actions[id].kind == kind && actions[id].status == Pending {
          actions := actions[id := actions[id].(status := Cancelled, completedAt := now)];
        }
      }
    }

    method ListPendingActions(d: Id, limit0: int, fault: bool) returns (r: Result<seq<Id>, Error>)
      ensures d == "" ==> r == Err(Invalid)
      ensures d != "" && fault ==> r == Err(Io)
      ensures d != "" && !fault ==> r.Ok? && Page(Rows(), d, if limit0 <= 0 then PAGE else limit0, r.value)
    {
      var limit := limit0;
      if limit <= 0 {
        limit := PAGE;
      }
      if d == "" {
        return Err(Invalid);
      }
      if fault {
        return Err(Io);
      }
      var keys := PendingKeys(d);
      NewestKeyFirstIsTotal();
      var sorted := Sort(keys, NewestKeyFirst());
      KeysPermuted(Rows(), PendingOf(Rows(), d), keys, sorted);
      var n := if |sorted| < limit then |sorted| else limit;
      FirstKeysPage(Rows(), d, limit, sorted, n);
      return Ok(Ids(sorted)[..n]);
    }

    method PendingKeys(d: Id) returns (keys: seq<Key>)
      ensures KeysOf(Rows(), PendingOf(Rows(), d), keys)
    {
      keys := [];
      var rest := actions.Keys;
      while rest != {}
        invariant rest <= actions.Keys
        invariant KeysOf(Rows(), PendingOf(Rows(), d) - rest, keys)
        decreases |rest|
      {
        var id :| id in rest;
        rest := rest - {id};
        if actions[id].device == d && actions[id].status == Pending {
          keys := keys + [Key(actions[id].requestedAt, id)];
        }
      }
    }

    method MarkActionsDelivered(ids: seq<Id>, now: int, fault: bool) returns (e: Option<Error>)
      modifies this`actions
      ensures e == if ids != [] && fault then Some(Io) else None
      ensures Rows() == if e.Some? then old(Rows()) else ActionsDelivered(old(Rows()), ids, now)
    {
      if |ids| == 0 {
        assert actions == ActionsDelivered(Rows(), ids, now).actions;
        return None;
      }
      if fault {
        return Some(Io);
      }
      var rest := actions.Keys;
      while rest != {}
        invariant rest <= actions.Keys == old(actions).Keys
        invariant forall id :: id in actions ==>
          actions[id] == if id in rest then old(actions)[id] else ActionsDelivered(old(Rows()), ids, now).actions[id]
        decreases |rest|
      {
        var id :| id in rest;
        rest := rest - {id};
        var a := actions[id];
        if id in ids && a.status == Pending {
          var deliveredAt := if a.deliveredAt == 0 then now else a.deliveredAt;
          actions := actions[id := a.(status := Delivered, deliveredAt := deliveredAt)];
        }
      }
      return None;
    }
  }
}
