/** The services devices and administrators call, run one at a time. */
module ControlPlane {
  import opened Wrappers
  import opened Registry

  const MAX_REVISION: nat := 0xFFFF_FFFF_FFFF_FFFF

  /** Revisions are 64-bit and skip zero when they wrap. */
  function NextRevision(r: nat): nat
  {
    if r >= MAX_REVISION then 1 else r + 1
  }

  /** What an administrator's policy update does; expected zero means no check. */
  function AdminUpdated(db: Db, d: Id, expected: nat, reset: bool, policy: Option<Config>, fault: bool)
    : Result<Db, Error>
  {
    if d == "" then Err(Invalid)
    else if d !in db.devices then Err(NotExist)
    else
      var current := db.devices[d].revision;
      if expected != 0 && expected != current then Err(FailedPrecondition)
      else if reset then Unless(fault, PolicyReset(db, d, NextRevision(current)))
      else if policy.None? then Err(Invalid)
      else Unless(fault, PolicySet(db, d, policy.value, NextRevision(current)))
  }

  /** What an administrator's action request does. */
  function ActionRequested(db: Db, d: Id, kind: string, payload: string, replace: bool, id: Id, now: int, fault: bool)
    : Result<Db, Error>
  {
    if d == "" || kind == "" then Err(Invalid)
    else if d !in db.devices then Err(NotExist)
    else Unless(id !in db.actions && fault, Enqueued(db, d, kind, payload, replace, id, now))
  }

  class ControlPlaneService {
    const registry: DeviceRegistry
    const defaults: Config
    const defaultRevision: nat

    constructor (registry: DeviceRegistry, defaults: Config, defaultRevision: nat)
      ensures this.registry == registry && this.defaults == defaults && this.defaultRevision == defaultRevision
    {
      this.registry, this.defaults, this.defaultRevision := registry, defaults, defaultRevision;
    }

    method RegisterDevice(d: Id, profile: string, fault: bool, readFails: bool) returns (r: Result<Device, Error>)
      modifies registry
      ensures match Unless(d != "" && fault, Registered(old(registry.Rows()), d, profile, defaultRevision))
        case Ok(db) => registry.Rows() == db && r == if readFails then Err(Io) else Ok(db.devices[d])
        case Err(e) => registry.Rows() == old(registry.Rows()) && r == Err(e)
    {
      if d == "" {
        return Err(Invalid);
      }
      r := registry.Register(d, profile, defaultRevision, fault, readFails);
    }

    /** The ids returned are the newest pending actions, and they are delivered by it; when a
        statement fails an error is returned and nothing is delivered. */
    method Heartbeat(d: Id, session: string, now: int, fault: bool, readFails: bool, listFails: bool, markFails: bool)
      returns (r: Result<seq<Id>, Error>)
      modifies registry
      ensures match Unless(d != "" && fault, SessionUpdated(old(registry.Rows()), d, session))
        case Err(e) => registry.Rows() == old(registry.Rows()) && r == Err(e)
        case Ok(db) =>
          if r.Ok? then Page(db, d, PAGE, r.value) && registry.Rows() == ActionsDelivered(db, r.value, now)
          else r == Err(Io) && registry.Rows() == db && (readFails || listFails || markFails)
    {
      if d == "" {
        return Err(Invalid);
      }
      var record := registry.UpdateHeartbeat(d, session, fault, readFails);
      if record.Err? {
        return Err(record.error);
      }
      r := registry.ListPendingActions(d, PAGE, listFails);
      if r.Err? {
        return;
      }
      var e := registry.MarkActionsDelivered(r.value, now, markFails);
      if e.Some? {
        return Err(e.value);
      }
    }

    /** The flag is cleared before the policy is read, and stays cleared when that read fails;
        the revision reported is the one read first. */
    method GetAssignedConfig(d: Id, markFails: bool, readFails: bool) returns (r: Result<(Config, nat), Error>)
      modifies registry
      ensures var before := old(registry.Rows());
        if d == "" then r == Err(Invalid) && registry.Rows() == before
        else if d !in before.devices then r == Err(NotExist) && registry.Rows() == before
        else match Unless(markFails, PolicyPulled(before, d))
          case Err(e) => registry.Rows() == before && r == Err(e)
          case Ok(db) =>
            && registry.Rows() == db
            && r == if readFails then Err(Io) else Ok((Effective(db, d, defaults), db.devices[d].revision))
    {
      if d == "" {
        return Err(Invalid);
      }
      var record := registry.Get(d, false);
      if record.Err? {
        return Err(record.error);
      }
      var e := registry.MarkPolicyPulled(d, markFails);
      if e.Some? {
        return Err(e.value);
      }
      var config := defaults;
      var override := registry.GetPolicy(d, readFails);
      if override.Ok? {
        config := override.value.config;
      } else if override.error != NotExist {
        return Err(override.error);
      }
      return Ok((config, record.value.revision));
    }
  }

  class AdminConsoleService {
    const registry: DeviceRegistry
    const defaults: Config

    constructor (registry: DeviceRegistry, defaults: Config)
      ensures this.registry == registry && this.defaults == defaults
    {
      this.registry, this.defaults := registry, defaults;
    }

    /** When the policy cannot be read back after the commit, an error is returned over a changed
        registry. */
    method UpdateDevicePolicy(d: Id, expected: nat, reset: bool, policy: Option<Config>, fault: bool, readFails: bool)
      returns (r: Result<(nat, Config), Error>)
      modifies registry
      ensures match AdminUpdated(old(registry.Rows()), d, expected, reset, policy, fault)
        case Err(e) => registry.Rows() == old(registry.Rows()) && r == Err(e)
        case Ok(db) =>
          && registry.Rows() == db
          && r == if !reset && readFails then Err(Io) else Ok((db.devices[d].revision, Effective(db, d, defaults)))
    {
      if d == "" {
        return Err(Invalid);
      }
      var record := registry.Get(d, false);
      if record.Err? {
        return Err(record.error);
      }
      if expected != 0 && expected != record.value.revision {
        return Err(FailedPrecondition);
      }
      var next := NextRevision(record.value.revision);
      var effective := defaults;
      if reset {
        var e := registry.ResetPolicy(d, next, fault);
        if e.Some? {
          return Err(e.value);
        }
      } else {
        if policy.None? {
          return Err(Invalid);
        }
        effective := policy.value;
        var p := registry.UpsertPolicy(d, effective, next, fault, readFails);
        if p.Err? {
          return Err(p.error);
        }
      }
      return Ok((next, effective));
    }

    method RequestClientAction(d: Id, kind: string, payload: string, replace: bool, id: Id, now: int, fault: bool)
      returns (r: Result<Action, Error>)
      modifies registry
      ensures match ActionRequested(old(registry.Rows()), d, kind, payload, replace, id, now, fault)
        case Ok(db) => registry.Rows() == db && r == Ok(db.actions[id])
        case Err(e) => registry.Rows() == old(registry.Rows()) && r == Err(e)
    {
      if d == "" || kind == "" {
        return Err(Invalid);
      }
      var record := registry.Get(d, false);
      if record.Err? {
        return Err(record.error);
      }
      r := registry.EnqueueAction(d, kind, payload, replace, id, now, fault);
    }
  }

  // ---------- revisions along runs ----------

  /** An override belongs to a registered device and carries its revision. */
  predicate RevisionsAgree(db: Db)
  {
    forall d :: d in db.policies ==> d in db.devices && db.policies[d].revision == db.devices[d].revision
  }

  /** Calls run one at a time; fault says whether the transaction fails. */
  datatype Call =
    | Registration(device: Id, profile: string, revision: nat)
    | PolicyUpdate(device: Id, expected: nat, reset: bool, policy: Option<Config>, fault: bool)
    | Pull(device: Id)
    | Beat(device: Id, session: string)
    | ActionRequest(device: Id, kind: string, payload: string, replace: bool, id: Id, now: int)

  function Outcome(db: Db, c: Call): Result<Db, Error>
  {
    match c
    case Registration(d, profile, revision) => Registered(db, d, profile, revision)
    case PolicyUpdate(d, expected, reset, policy, fault) => AdminUpdated(db, d, expected, reset, policy, fault)
    case Pull(d) => PolicyPulled(db, d)
    case Beat(d, session) => SessionUpdated(db, d, session)
    case ActionRequest(d, kind, payload, replace, id, now) =>
      ActionRequested(db, d, kind, payload, replace, id, now, false)
  }

  function After(db: Db, c: Call): Db
  {
    var r := Outcome(db, c);
    if r.Ok? then r.value else db
  }

  function AfterAll(db: Db, calls: seq<Call>): Db
    decreases |calls|
  {
    if calls == [] then db else AfterAll(After(db, calls[0]), calls[1..])
  }

  /** The call changes the policy of d, whatever its caller is told. */
  predicate Commits(db: Db, c: Call, d: Id)
  {
    c.PolicyUpdate? && c.device == d && Outcome(db, c).Ok?
  }

  /** Some update of the run takes the revision of d from the greatest number back to one. */
  predicate Wraps(db: Db, calls: seq<Call>, d: Id)
    decreases |calls|
  {
    calls != [] &&
    ((Commits(db, calls[0], d) && db.devices[d].revision >= MAX_REVISION) || Wraps(After(db, calls[0]), calls[1..], d))
  }

  /** The revisions that the committed updates of d carry, in order. */
  function Carried(db: Db, calls: seq<Call>, d: Id): seq<nat>
    decreases |calls|
  {
    if calls == [] then []
    else
      var rest := Carried(After(db, calls[0]), calls[1..], d);
      if Commits(db, calls[0], d) then [NextRevision(db.devices[d].revision)] + rest else rest
  }

  lemma OneCall(db: Db, c: Call, d: Id)
    requires d in db.devices && RevisionsAgree(db)
    ensures d in After(db, c).devices && RevisionsAgree(After(db, c))
    ensures After(db, c).devices[d].revision ==
      if Commits(db, c, d) then NextRevision(db.devices[d].revision) else db.devices[d].revision
  { }

  /** Along every run without a wrap, the updates of a device carry consecutive revisions, and
      the device and its override end with the last of them. */
  lemma {:induction false} RevisionsCount(db: Db, calls: seq<Call>, d: Id)
    requires d in db.devices && RevisionsAgree(db) && !Wraps(db, calls, d)
    ensures var k := Carried(db, calls, d);
      && (forall i :: 0 <= i < |k| ==> k[i] == db.devices[d].revision + 1 + i)
      && d in AfterAll(db, calls).devices && RevisionsAgree(AfterAll(db, calls))
      && AfterAll(db, calls).devices[d].revision == db.devices[d].revision + |k|
    decreases |calls|
  {
    if calls != [] {
      OneCall(db, calls[0], d);
      RevisionsCount(After(db, calls[0]), calls[1..], d);
    }
  }

  /** Two updates that name the same non-zero revision never both go through, unless the
      revision wrapped between them. */
  lemma SameExpectationTwiceMeansWrap(db: Db, first: Call, calls: seq<Call>, second: Call, d: Id)
    requires d in db.devices && RevisionsAgree(db)
    requires Commits(db, first, d) && Commits(AfterAll(After(db, first), calls), second, d)
    requires first.expected == second.expected != 0
    ensures Wraps(db, [first] + calls, d)
  {
    assert ([first] + calls)[1..] == calls;
    if !Wraps(db, [first] + calls, d) {
      OneCall(db, first, d);
      RevisionsCount(After(db, first), calls, d);
    }
  }

  /** A revision given out is never zero, which callers use for no expectation, fits 64 bits, and
      differs from the one before; it is one more, or one after the greatest. */
  lemma NextRevisionIsNew(r: nat)
    requires r <= 0xFFFF_FFFF_FFFF_FFFF
    ensures 1 <= NextRevision(r) <= 0xFFFF_FFFF_FFFF_FFFF && NextRevision(r) != r
    ensures NextRevision(r) == if r == 0xFFFF_FFFF_FFFF_FFFF then 1 else r + 1
  { }

  /** Every policy update: it goes through exactly for a known device, without an expectation or
      with the right one, to be reset or with a policy, if the transaction works; the first thing
      that is wrong is reported. */
  lemma UpdateAnswer(db: Db, d: Id, expected: nat, reset: bool, policy: Option<Config>, fault: bool)
    ensures var r := AdminUpdated(db, d, expected, reset, policy, fault);
      && (r.Ok? <==>
            && d != "" && d in db.devices && (expected == 0 || expected == db.devices[d].revision)
            && (reset || policy.Some?) && !fault)
      && (r == Err(Invalid) <==>
            || d == ""
            || (d in db.devices && (expected == 0 || expected == db.devices[d].revision) && !reset && policy.None?))
      && (r == Err(NotExist) <==> d != "" && d !in db.devices)
      && (r == Err(FailedPrecondition) <==>
            d != "" && d in db.devices && expected != 0 && expected != db.devices[d].revision)
      && (r.Ok? ==>
            && r.value.devices[d]
              == Device(db.devices[d].profile, db.devices[d].sessionId, NextRevision(db.devices[d].revision), true)
            && (reset ==> r.value.policies == db.policies - {d})
            && (!reset ==> d in r.value.policies && r.value.policies[d].config == policy.value))
  {
    if d in db.devices {
      PolicyRows(db, d, if reset then None else policy, NextRevision(db.devices[d].revision));
    }
  }

  /** Every action request: it is taken exactly for a known device, with a kind, under a new id, if
      the transaction works; the first thing that is wrong is reported. */
  lemma RequestAnswer(
      db: Db, d: Id, kind: string, payload: string, replace: bool, id: Id, now: int, fault: bool)
    ensures var r := ActionRequested(db, d, kind, payload, replace, id, now, fault);
      if d == "" || kind == "" then r == Err(Invalid)
      else if d !in db.devices then r == Err(NotExist)
      else if id in db.actions then r == Err(Exists)
      else if fault then r == Err(Io)
      else
        && r.Ok? && r.value.devices == db.devices && r.value.policies == db.policies
        && Queued(db.actions, d, kind, payload, replace, id, now, r.value.actions)
  {
    EnqueueAnswer(db, d, kind, payload, replace, id, now);
  }

  // ---------- what a device's row shows along runs ----------

  /** One call of the run writes the profile, the session, the flag or the override of d. */
  predicate WritesProfile(c: Call, d: Id)
  {
    c.Registration? && c.device == d
  }

  predicate WritesSession(c: Call, d: Id)
  {
    c.Beat? && c.device == d
  }

  predicate WritesFlag(db: Db, c: Call, d: Id)
  {
    (c.Pull? && c.device == d) || Commits(db, c, d)
  }

  /** A call leaves whatever it does not write; what it writes is what it says. */
  lemma CallWrites(db: Db, c: Call, d: Id)
    requires d != "" && d in db.devices
    ensures var before, after := db.devices[d], After(db, c);
      && d in after.devices
      && after.devices[d].profile == (if WritesProfile(c, d) then c.profile else before.profile)
      && after.devices[d].sessionId == (if WritesSession(c, d) then c.session else before.sessionId)
      && after.devices[d].requiresPull == (if WritesFlag(db, c, d) then !c.Pull? else before.requiresPull)
      && (!Commits(db, c, d) ==> after.devices[d].revision == before.revision)
      && (!Commits(db, c, d) ==> (d in after.policies <==> d in db.policies))
      && (!Commits(db, c, d) && d in db.policies ==> after.policies[d] == db.policies[d])
  { }

  predicate NoneWritesProfile(calls: seq<Call>, d: Id)
  {
    forall c :: c in calls ==> !WritesProfile(c, d)
  }

  predicate NoneWritesSession(calls: seq<Call>, d: Id)
  {
    forall c :: c in calls ==> !WritesSession(c, d)
  }

  predicate NoneWritesFlag(db: Db, calls: seq<Call>, d: Id)
    decreases |calls|
  {
    calls == [] || (!WritesFlag(db, calls[0], d) && NoneWritesFlag(After(db, calls[0]), calls[1..], d))
  }

  predicate NoneCommits(db: Db, calls: seq<Call>, d: Id)
    decreases |calls|
  {
    calls == [] || (!Commits(db, calls[0], d) && NoneCommits(After(db, calls[0]), calls[1..], d))
  }

  lemma {:induction false} RowStays(db: Db, calls: seq<Call>, d: Id, defaults: Config)
    requires d != "" && d in db.devices
    ensures var b := AfterAll(db, calls);
      && d in b.devices
      && (NoneWritesProfile(calls, d) ==> b.devices[d].profile == db.devices[d].profile)
      && (NoneWritesSession(calls, d) ==> b.devices[d].sessionId == db.devices[d].sessionId)
      && (NoneWritesFlag(db, calls, d) ==> b.devices[d].requiresPull == db.devices[d].requiresPull)
      && (NoneCommits(db, calls, d) ==>
            b.devices[d].revision == db.devices[d].revision && Effective(b, d, defaults) == Effective(db, d, defaults))
    decreases |calls|
  {
    if calls != [] {
      CallWrites(db, calls[0], d);
      RowStays(After(db, calls[0]), calls[1..], d, defaults);
      assert forall c :: c in calls[1..] ==> c in calls;
    }
  }

  /** Along every run a device's row shows its last registration's profile, its last heartbeat's
      session, whether a change of its policy or a pull came last, and the last policy set, with
      the revision it was given. */
  lemma RowTellsTheLastCalls(db: Db, c: Call, calls: seq<Call>, d: Id, defaults: Config)
    requires d != "" && (d in db.devices || WritesProfile(c, d))
    ensures var b := AfterAll(db, [c] + calls);
      && d in b.devices
      && (WritesProfile(c, d) && NoneWritesProfile(calls, d) ==> b.devices[d].profile == c.profile)
      && (WritesSession(c, d) && NoneWritesSession(calls, d) ==> b.devices[d].sessionId == c.session)
      && (d !in db.devices && NoneWritesSession(calls, d) ==> b.devices[d].sessionId == "")
      && (c.Pull? && c.device == d && NoneWritesFlag(After(db, c), calls, d) ==> !b.devices[d].requiresPull)
      && ((Commits(db, c, d) || d !in db.devices) && NoneWritesFlag(After(db, c), calls, d) ==>
            b.devices[d].requiresPull)
      && (Commits(db, c, d) && NoneCommits(After(db, c), calls, d) ==>
            && b.devices[d].revision == NextRevision(db.devices[d].revision)
            && Effective(b, d, defaults) == if c.reset then defaults else c.policy.value)
      && (d !in db.devices && NoneCommits(After(db, c), calls, d) ==> b.devices[d].revision == c.revision)
  {
    assert ([c] + calls)[1..] == calls;
    if d in db.devices { CallWrites(db, c, d); }
    RowStays(After(db, c), calls, d, defaults);
  }

  /** An update with an expected revision goes through exactly if it names the current one; then
      the device must pull and only its policy has changed. */
  lemma CompareAndSet(db: Db, d: Id, expected: nat, reset: bool, policy: Option<Config>, defaults: Config)
    requires d != "" && d in db.devices && expected != 0 && (reset || policy.Some?)
    ensures var r := AdminUpdated(db, d, expected, reset, policy, false);
      && (r.Ok? <==> expected == db.devices[d].revision)
      && (r.Ok? ==>
            && r.value.devices[d].requiresPull
            && Effective(r.value, d, defaults) == (if reset then defaults else policy.value)
            && forall e :: e != d ==> Effective(r.value, e, defaults) == Effective(db, e, defaults))
  { }
}
