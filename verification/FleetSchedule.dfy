/**
 cmd/rosshield-server/fleet_scan_scheduler.go, with internal/platform/scheduler/cronsched/scheduler.go
 and the fleet handlers: the cron table that follows the fleets' policies, one change at a time.
 */
module FleetSchedule {
  import opened Common

  /** A fleet's row; a deleted fleet keeps its row and its ID. */
  datatype Fleet = Fleet(tenant: string, spec: string, packKey: string, deleted: bool)

  /** IDs are the primary key over all tenants. */
  datatype Db = Db(tenants: set<string>, fleets: map<string, Fleet>)

  /** What the scheduled closure holds. */
  datatype Job = Job(spec: string, tenant: string, fleet: string, packKey: string)

  type Table = map<string, Job>

  const PREFIX := "fleet-scan-"
  const SYSTEM := "system"

  function JobId(fleet: string): string {
    PREFIX + fleet
  }

  predicate IsFleetJob(k: string) {
    StartsWith(k, PREFIX)
  }

  /** The jobs of fleets; the rest are the server's own (checkpoints, key rotation, backups). */
  function FleetPart(t: Table): Table {
    map k | k in t && IsFleetJob(k) :: t[k]
  }

  // ---------------------------------------------------------------- the cron scheduler

  class CronScheduler {
    var entries: Table
    const specOk: string -> bool

    /** A scheduler with the jobs that the server has entered before. */
    constructor (specOk: string -> bool, jobs: Table)
      ensures entries == jobs && this.specOk == specOk
    {
      this.entries := jobs;
      this.specOk := specOk;
    }

    method Schedule(id: string, job: Job) returns (ok: bool)
      modifies this
      ensures ok <==> id !in old(entries) && specOk(job.spec)
      ensures entries == if ok then old(entries)[id := job] else old(entries)
    {
      if id in entries {
        return false;
      }
      if !specOk(job.spec) {
        return false;
      }
      entries := entries[id := job];
      ok := true;
    }

    method Cancel(id: string)
      modifies this
      ensures entries == old(entries) - {id}
    {
      if id in entries {
        entries := entries - {id};
      }
    }
  }

  // ---------------------------------------------------------------- what should be scheduled

  /** The fleet exists and its policy asks for scans in a way the scheduler takes. */
  predicate Wanted(db: Db, id: string, specOk: string -> bool) {
    && id in db.fleets && !db.fleets[id].deleted
    && db.fleets[id].spec != "" && db.fleets[id].packKey != "" && specOk(db.fleets[id].spec)
  }

  function JobOf(db: Db, id: string): Job
    requires id in db.fleets
  {
    var f := db.fleets[id];
    Job(f.spec, f.tenant, id, f.packKey)
  }

  /** The jobs of all wanted fleets, except for those lost. */
  function JobTable(db: Db, lost: set<string>, specOk: string -> bool): Table {
    map k | k in (set id | id in db.fleets && Wanted(db, id, specOk) && id !in lost :: JobId(id)) ::
      JobOf(db, k[|PREFIX|..])
  }

  lemma JobIdsTell(a: string, b: string)
    ensures JobId(a)[|PREFIX|..] == a
    ensures JobId(a) == JobId(b) <==> a == b
  {
    assert JobId(b)[|PREFIX|..] == b;
  }

  /** The table, looked up by fleet. */
  lemma TableAt(db: Db, lost: set<string>, specOk: string -> bool, id: string)
    ensures JobId(id) in JobTable(db, lost, specOk) <==> Wanted(db, id, specOk) && id !in lost
    ensures JobId(id) in JobTable(db, lost, specOk) ==> JobTable(db, lost, specOk)[JobId(id)] == JobOf(db, id)
  {
    JobIdsTell(id, id);
    if JobId(id) in JobTable(db, lost, specOk) {
      var id' :| id' in db.fleets && Wanted(db, id', specOk) && id' !in lost && JobId(id') == JobId(id);
      JobIdsTell(id, id');
    }
  }

  /** A table that agrees on every fleet, and has no other keys, is the table. */
  lemma TableIs(t: Table, db: Db, lost: set<string>, specOk: string -> bool)
    requires forall k :: k in t ==> exists id :: k == JobId(id)
    requires forall id :: (JobId(id) in t <==> Wanted(db, id, specOk) && id !in lost)
    requires forall id :: JobId(id) in t && id in db.fleets ==> t[JobId(id)] == JobOf(db, id)
    ensures t == JobTable(db, lost, specOk)
  {
    var u := JobTable(db, lost, specOk);
    forall k | k in t ensures k in u && u[k] == t[k] {
      var id :| k == JobId(id);
      TableAt(db, lost, specOk, id);
    }
    forall k | k in u ensures k in t {
      var id :| id in db.fleets && Wanted(db, id, specOk) && id !in lost && JobId(id) == k;
    }
  }

  lemma TableKeys(db: Db, lost: set<string>, specOk: string -> bool)
    ensures forall k :: k in JobTable(db, lost, specOk) ==> exists id :: k == JobId(id)
  {
  }

  // ---------------------------------------------------------------- following one fleet

  /** GetFleet: the tenant's fleet, unless deleted. */
  function GetFleet(db: Db, tenant: string, id: string): Option<Fleet> {
    if id in db.fleets && !db.fleets[id].deleted && db.fleets[id].tenant == tenant then Some(db.fleets[id]) else None
  }

  /** The table after one fleet's job is dropped and, if the fleet can be read, made anew. */
  function Reconciled(t: Table, db: Db, tenant: string, id: string, readFails: bool, specOk: string -> bool): Table {
    if !readFails && GetFleet(db, tenant, id).Some? && Wanted(db, id, specOk)
    then (t - {JobId(id)})[JobId(id) := JobOf(db, id)]
    else t - {JobId(id)}
  }

  /** Fleets that a restart does not reach: those of the system tenant, of tenants that are not listed,
      and of tenants whose fleets could not be read. */
  function Unreached(db: Db, failing: set<string>): set<string> {
    set id | id in db.fleets && !Reached(db, id, failing)
  }

  predicate Reached(db: Db, id: string, failing: set<string>)
    requires id in db.fleets
  {
    var t := db.fleets[id].tenant;
    t in db.tenants && t != SYSTEM && t !in failing
  }

  class FleetScanScheduler {
    const sch: CronScheduler

    constructor (sch: CronScheduler)
      ensures this.sch == sch
    {
      this.sch := sch;
    }

    /** registerFromFleet. */
    method RegisterFromFleet(id: string, f: Fleet) returns (registered: bool)
      modifies sch
      ensures registered <==> f.spec != "" && f.packKey != "" && JobId(id) !in old(sch.entries) && sch.specOk(f.spec)
      ensures sch.entries == if registered then old(sch.entries)[JobId(id) := Job(f.spec, f.tenant, id, f.packKey)]
                             else old(sch.entries)
    {
      if f.spec == "" || f.packKey == "" {
        return false;
      }
      registered := sch.Schedule(JobId(id), Job(f.spec, f.tenant, id, f.packKey));
    }

    method Reconcile(db: Db, tenant: string, id: string, readFails: bool)
      modifies sch
      ensures sch.entries == Reconciled(old(sch.entries), db, tenant, id, readFails, sch.specOk)
    {
      sch.Cancel(JobId(id));
      if readFails {
        return;
      }
      var f := GetFleet(db, tenant, id);
      if f.None? {
        return;
      }
      var registered := RegisterFromFleet(id, f.value);
    }

    method Cancel(id: string)
      modifies sch
      ensures sch.entries == old(sch.entries) - {JobId(id)}
    {
      sch.Cancel(JobId(id));
    }

    /** One tenant's fleets, in whatever order they are listed. */
    method RegisterFleets(db: Db, ids: set<string>, ghost lost: set<string>, ghost others: Table)
      returns (registered: nat)
      requires sch.entries == others + JobTable(db, lost, sch.specOk) && FleetPart(others) == map[]
      requires ids <= lost && forall id :: id in ids ==> id in db.fleets && !db.fleets[id].deleted
      modifies sch
      ensures sch.entries == others + JobTable(db, lost - ids, sch.specOk)
      ensures |sch.entries| == |old(sch.entries)| + registered
    {
      hide JobTable, JobId, FleetPart;
      registered := 0;
      var rest := ids;
      ghost var now := lost;
      while rest != {}
        invariant rest <= ids && rest <= now && lost - ids <= now && now <= lost - (ids - rest)
        invariant sch.entries == others + JobTable(db, now, sch.specOk)
        invariant |sch.entries| == |old(sch.entries)| + registered
        decreases |rest|
      {
        var id :| id in rest;
        rest := rest - {id};
        OneFleetMore(db, now, id, sch.specOk);
        NotAmongOthers(others, id);
        MoreBeside(others, JobTable(db, now, sch.specOk), JobId(id), JobOf(db, id));
        now := now - {id};
        var ok := RegisterFromFleet(id, db.fleets[id]);
        if ok {
          registered := registered + 1;
        }
      }
      assert now == lost - ids;
    }

    /** Beside the server's own jobs: the jobs of every reached fleet, in whatever order the tenants come,
        and the number of them. */
    method RegisterAll(db: Db, failing: set<string>) returns (registered: nat)
      requires FleetPart(sch.entries) == map[]
      modifies sch
      ensures sch.entries == old(sch.entries) + JobTable(db, Unreached(db, failing), sch.specOk)
      ensures registered == |JobTable(db, Unreached(db, failing), sch.specOk)|
    {
      hide JobTable, FleetPart, Wanted, Done, OfTenant;
      registered := 0;
      ghost var others := sch.entries;
      var rest := set t | t in db.tenants && t != SYSTEM;
      NoneDone(db, rest, failing, others, sch.specOk);
      while rest != {}
        invariant rest <= db.tenants - {SYSTEM}
        invariant sch.entries == others + JobTable(db, db.fleets.Keys - Done(db, rest, failing), sch.specOk)
        invariant |sch.entries| == |others| + registered
        decreases |rest|
      {
        var tenant :| tenant in rest;
        TenantDone(db, rest, tenant, failing);
        if tenant !in failing {
          var n := RegisterFleets(db, OfTenant(db, tenant), db.fleets.Keys - Done(db, rest, failing), others);
          registered := registered + n;
        }
        rest := rest - {tenant};
      }
      AllDone(db, failing, sch.specOk);
      PartsCount(others, db, Unreached(db, failing), sch.specOk);
    }
  }

  function OfTenant(db: Db, tenant: string): set<string> {
    set id | id in db.fleets && !db.fleets[id].deleted && db.fleets[id].tenant == tenant
  }

  /** The fleets whose tenants have had their turn. */
  function Done(db: Db, rest: set<string>, failing: set<string>): set<string> {
    set id | id in db.fleets && Reached(db, id, failing) && !db.fleets[id].deleted && db.fleets[id].tenant !in rest
  }

  lemma TenantDone(db: Db, rest: set<string>, tenant: string, failing: set<string>)
    requires tenant in rest && rest <= db.tenants - {SYSTEM}
    ensures var left := db.fleets.Keys - Done(db, rest, failing);
            && OfTenant(db, tenant) <= left
            && db.fleets.Keys - Done(db, rest - {tenant}, failing) ==
               if tenant in failing then left else left - OfTenant(db, tenant)
    ensures forall id :: id in OfTenant(db, tenant) ==> id in db.fleets && !db.fleets[id].deleted
  {
  }

  lemma AllDone(db: Db, failing: set<string>, specOk: string -> bool)
    ensures JobTable(db, db.fleets.Keys - Done(db, {}, failing), specOk) == JobTable(db, Unreached(db, failing), specOk)
  {
    hide JobTable;
    LostAlike(db, db.fleets.Keys - Done(db, {}, failing), Unreached(db, failing), specOk);
  }

  lemma NoneDone(db: Db, rest: set<string>, failing: set<string>, others: Table, specOk: string -> bool)
    requires rest == db.tenants - {SYSTEM}
    ensures others == others + JobTable(db, db.fleets.Keys - Done(db, rest, failing), specOk)
  {
    assert Done(db, rest, failing) == {};
    TableIs(map[], db, db.fleets.Keys - {}, specOk);
    assert others + map[] == others;
  }

  lemma FleetJobIds(id: string)
    ensures IsFleetJob(JobId(id))
  {
  }

  lemma NotAmongOthers(others: Table, id: string)
    requires FleetPart(others) == map[]
    ensures JobId(id) !in others
  {
    FleetJobIds(id);
    assert JobId(id) !in FleetPart(others);
  }

  lemma MoreBeside(others: Table, t: Table, k: string, j: Job)
    requires k !in others
    ensures (others + t)[k := j] == others + t[k := j] && (k in others + t <==> k in t)
  {
  }

  lemma Apart(others: Table, db: Db, lost: set<string>, specOk: string -> bool)
    requires FleetPart(others) == map[]
    ensures var t := JobTable(db, lost, specOk);
            (forall k :: k in t ==> IsFleetJob(k)) && (forall k :: k in others ==> !IsFleetJob(k))
  {
    var t := JobTable(db, lost, specOk);
    TableKeys(db, lost, specOk);
    hide JobTable, IsFleetJob;
    forall k | k in t ensures IsFleetJob(k) {
      var id :| k == JobId(id);
      FleetJobIds(id);
    }
    forall k | k in others ensures !IsFleetJob(k) {
      assert k !in FleetPart(others);
    }
  }

  /** Fleet jobs and the others never share a key. */
  lemma PartsCount(others: Table, db: Db, lost: set<string>, specOk: string -> bool)
    requires FleetPart(others) == map[]
    ensures |others + JobTable(db, lost, specOk)| == |others| + |JobTable(db, lost, specOk)|
    ensures FleetPart(others + JobTable(db, lost, specOk)) == JobTable(db, lost, specOk)
  {
    Apart(others, db, lost, specOk);
    hide JobTable, IsFleetJob;
    TwoParts(others, JobTable(db, lost, specOk));
  }

  lemma TwoParts(a: Table, b: Table)
    requires (forall k :: k in b ==> IsFleetJob(k)) && forall k :: k in a ==> !IsFleetJob(k)
    ensures FleetPart(a + b) == b && |a + b| == |a| + |b|
  {
    hide IsFleetJob;
    assert FleetPart(a + b) == b;
    hide FleetPart;
    TwoKeys(a, b);
  }

  lemma TwoKeys(a: Table, b: Table)
    requires a.Keys !! b.Keys
    ensures |a + b| == |a| + |b|
  {
    assert (a + b).Keys == a.Keys + b.Keys;
    assert |a + b| == |(a + b).Keys|;
  }

  /** What Reconcile and Cancel do to the fleets' part. */
  lemma PartsReconciled(t: Table, db: Db, tenant: string, id: string, readFails: bool, specOk: string -> bool)
    ensures FleetPart(Reconciled(t, db, tenant, id, readFails, specOk))
            == Reconciled(FleetPart(t), db, tenant, id, readFails, specOk)
    ensures FleetPart(t - {JobId(id)}) == FleetPart(t) - {JobId(id)}
  {
    FleetJobIds(id);
    hide IsFleetJob, Wanted, GetFleet;
    assert FleetPart(t - {JobId(id)}) == FleetPart(t) - {JobId(id)};
    var j := if id in db.fleets then JobOf(db, id) else Job("", "", "", "");
    assert FleetPart((t - {JobId(id)})[JobId(id) := j]) == (FleetPart(t) - {JobId(id)})[JobId(id) := j];
  }

  /** Only the wanted fleets among the lost ones matter. */
  lemma LostAlike(db: Db, lost: set<string>, lost': set<string>, specOk: string -> bool)
    requires forall id :: Wanted(db, id, specOk) ==> (id in lost <==> id in lost')
    ensures JobTable(db, lost, specOk) == JobTable(db, lost', specOk)
  {
    var t := JobTable(db, lost, specOk);
    TableKeys(db, lost, specOk);
    forall id ensures JobId(id) in t <==> Wanted(db, id, specOk) && id !in lost'
      ensures JobId(id) in t && id in db.fleets ==> t[JobId(id)] == JobOf(db, id)
    {
      TableAt(db, lost, specOk, id);
    }
    TableIs(t, db, lost', specOk);
  }

  /** A fleet that is no longer lost adds its job, if it is wanted. */
  lemma OneFleetMore(db: Db, lost: set<string>, id: string, specOk: string -> bool)
    requires id in lost && id in db.fleets && !db.fleets[id].deleted
    ensures var t := JobTable(db, lost, specOk);
            && JobId(id) !in t
            && JobTable(db, lost - {id}, specOk) == if Wanted(db, id, specOk) then t[JobId(id) := JobOf(db, id)] else t
  {
    var t := JobTable(db, lost, specOk);
    var u := if Wanted(db, id, specOk) then t[JobId(id) := JobOf(db, id)] else t;
    TableKeys(db, lost, specOk);
    TableAt(db, lost, specOk, id);
    forall other ensures JobId(other) in u <==> Wanted(db, other, specOk) && other !in lost - {id}
      ensures JobId(other) in u && other in db.fleets ==> u[JobId(other)] == JobOf(db, other)
    {
      TableAt(db, lost, specOk, other);
      JobIdsTell(id, other);
    }
    TableIs(u, db, lost - {id}, specOk);
  }

  // ---------------------------------------------------------------- changes and runs

  /** A committed change of one fleet and what follows it; readFails says that the read in Reconcile
      failed. Restart starts the process again, with jobs of its own. */
  datatype Change =
    | Create(tenant: string, id: string, spec: string, packKey: string, readFails: bool)
    | Update(tenant: string, id: string, spec: string, packKey: string, readFails: bool)
    | Delete(tenant: string, id: string)
    | Restart(failing: set<string>, own: Table)

  datatype State = State(db: Db, table: Table)

  predicate CanHappen(db: Db, c: Change) {
    match c
    case Create(tenant, id, _, _, _) => tenant in db.tenants && id !in db.fleets
    case Update(tenant, id, _, _, _) => GetFleet(db, tenant, id).Some?
    case Delete(tenant, id) => GetFleet(db, tenant, id).Some?
    case Restart(_, own) => FleetPart(own) == map[]
  }

  function Changed(db: Db, c: Change): Db {
    match c
    case Create(tenant, id, spec, packKey, _) => db.(fleets := db.fleets[id := Fleet(tenant, spec, packKey, false)])
    case Update(tenant, id, spec, packKey, _) => db.(fleets := db.fleets[id := Fleet(tenant, spec, packKey, false)])
    case Delete(tenant, id) =>
      if id in db.fleets then db.(fleets := db.fleets[id := db.fleets[id].(deleted := true)]) else db
    case Restart(_, _) => db
  }

  function Next(s: State, c: Change, specOk: string -> bool): State {
    var db := Changed(s.db, c);
    match c
    case Create(tenant, id, _, _, readFails) => State(db, Reconciled(s.table, db, tenant, id, readFails, specOk))
    case Update(tenant, id, _, _, readFails) => State(db, Reconciled(s.table, db, tenant, id, readFails, specOk))
    case Delete(_, id) => State(db, s.table - {JobId(id)})
    case Restart(failing, _) => State(db, JobTable(db, Unreached(db, failing), specOk))
  }

  /** The running server: its database and the scheduler that follows it. */
  class Server {
    var db: Db
    var fleets: FleetScanScheduler

    function Now(): State
      reads this, fleets.sch
    {
      State(db, FleetPart(fleets.sch.entries))
    }

    constructor (db: Db, specOk: string -> bool, own: Table)
      requires FleetPart(own) == map[]
      ensures this.db == db && fresh(fleets.sch) && fleets.sch.specOk == specOk
      ensures Now() == State(db, map[])
    {
      this.db := db;
      var sch := new CronScheduler(specOk, own);
      this.fleets := new FleetScanScheduler(sch);
    }

    /** The handlers of create, update and delete, and a restart. */
    method Apply(c: Change)
      requires CanHappen(db, c)
      modifies this, fleets.sch
      ensures fleets.sch.specOk == old(fleets.sch.specOk)
      ensures Now() == Next(old(Now()), c, old(fleets.sch.specOk))
      ensures fleets.sch == old(fleets.sch) || fresh(fleets.sch)
    {
      hide JobTable, FleetPart, Reconciled;
      db := Changed(db, c);
      match c
      case Create(tenant, id, _, _, readFails) =>
        PartsReconciled(fleets.sch.entries, db, tenant, id, readFails, fleets.sch.specOk);
        fleets.Reconcile(db, tenant, id, readFails);
      case Update(tenant, id, _, _, readFails) =>
        PartsReconciled(fleets.sch.entries, db, tenant, id, readFails, fleets.sch.specOk);
        fleets.Reconcile(db, tenant, id, readFails);
      case Delete(tenant, id) =>
        PartsReconciled(fleets.sch.entries, db, tenant, id, false, fleets.sch.specOk);
        fleets.Cancel(id);
      case Restart(failing, own) =>
        var sch := new CronScheduler(fleets.sch.specOk, own);
        fleets := new FleetScanScheduler(sch);
        var registered := fleets.RegisterAll(db, failing);
        PartsCount(own, db, Unreached(db, failing), fleets.sch.specOk);
    }
  }

  /** What is lost after a change: a failed read loses the fleet, a good one finds it, and a restart loses
      exactly what it does not reach. */
  function LostAfter(db: Db, lost: set<string>, c: Change): set<string> {
    match c
    case Create(_, id, _, _, readFails) => if readFails then lost + {id} else lost - {id}
    case Update(_, id, _, _, readFails) => if readFails then lost + {id} else lost - {id}
    case Delete(_, id) => lost
    case Restart(failing, _) => Unreached(db, failing)
  }

  /** Dropping and remaking one fleet's job keeps every other fleet's. */
  lemma ReconcileKeeps(db: Db, db': Db, lost: set<string>, tenant: string, id: string, readFails: bool,
                       specOk: string -> bool)
    requires id in db'.fleets && db'.fleets == db.fleets[id := db'.fleets[id]]
    requires GetFleet(db', tenant, id).Some?
    ensures Reconciled(JobTable(db, lost, specOk), db', tenant, id, readFails, specOk)
            == JobTable(db', if readFails then lost + {id} else lost - {id}, specOk)
  {
    var t := JobTable(db, lost, specOk);
    var lost' := if readFails then lost + {id} else lost - {id};
    var u := Reconciled(t, db', tenant, id, readFails, specOk);
    TableKeys(db, lost, specOk);
    hide JobTable;
    forall other ensures JobId(other) in u <==> Wanted(db', other, specOk) && other !in lost'
      ensures JobId(other) in u && other in db'.fleets ==> u[JobId(other)] == JobOf(db', other)
    {
      TableAt(db, lost, specOk, other);
      JobIdsTell(id, other);
    }
    TableIs(u, db', lost', specOk);
  }

  lemma DeleteKeeps(db: Db, db': Db, lost: set<string>, id: string, specOk: string -> bool)
    requires id in db'.fleets && db'.fleets[id].deleted && db'.fleets == db.fleets[id := db'.fleets[id]]
    ensures JobTable(db, lost, specOk) - {JobId(id)} == JobTable(db', lost, specOk)
  {
    var t := JobTable(db, lost, specOk);
    var u := t - {JobId(id)};
    TableKeys(db, lost, specOk);
    hide JobTable;
    forall other ensures JobId(other) in u <==> Wanted(db', other, specOk) && other !in lost
      ensures JobId(other) in u && other in db'.fleets ==> u[JobId(other)] == JobOf(db', other)
    {
      TableAt(db, lost, specOk, other);
      JobIdsTell(id, other);
    }
    TableIs(u, db', lost, specOk);
  }

  lemma NextKeeps(s: State, lost: set<string>, c: Change, specOk: string -> bool)
    requires CanHappen(s.db, c) && s.table == JobTable(s.db, lost, specOk)
    ensures var s' := Next(s, c, specOk); s'.table == JobTable(s'.db, LostAfter(s'.db, lost, c), specOk)
  {
    hide JobTable, Wanted, Reconciled;
    var db' := Changed(s.db, c);
    match c
    case Create(tenant, id, _, _, readFails) => ReconcileKeeps(s.db, db', lost, tenant, id, readFails, specOk);
    case Update(tenant, id, _, _, readFails) => ReconcileKeeps(s.db, db', lost, tenant, id, readFails, specOk);
    case Delete(_, id) => DeleteKeeps(s.db, db', lost, id, specOk);
    case Restart(_, _) =>
  }

  function After(s: State, cs: seq<Change>, specOk: string -> bool): State
    decreases |cs|
  {
    if cs == [] then s else After(Next(s, cs[0], specOk), cs[1..], specOk)
  }

  predicate AllCanHappen(s: State, cs: seq<Change>, specOk: string -> bool)
    decreases |cs|
  {
    cs == [] || (CanHappen(s.db, cs[0]) && AllCanHappen(Next(s, cs[0], specOk), cs[1..], specOk))
  }

  function LostOver(s: State, lost: set<string>, cs: seq<Change>, specOk: string -> bool): set<string>
    decreases |cs|
  {
    if cs == [] then lost
    else
      var s' := Next(s, cs[0], specOk);
      LostOver(s', LostAfter(s'.db, lost, cs[0]), cs[1..], specOk)
  }

  /** Over any run the table is, entry for entry, what the policies ask for, except for the lost fleets. */
  lemma {:induction false} RunKeepsTable(s: State, lost: set<string>, cs: seq<Change>, specOk: string -> bool)
    requires s.table == JobTable(s.db, lost, specOk) && AllCanHappen(s, cs, specOk)
    ensures var s' := After(s, cs, specOk);
            s'.table == JobTable(s'.db, LostOver(s, lost, cs, specOk), specOk)
    decreases |cs|
  {
    hide JobTable, Next;
    if cs != [] {
      NextKeeps(s, lost, cs[0], specOk);
      var s' := Next(s, cs[0], specOk);
      RunKeepsTable(s', LostAfter(s'.db, lost, cs[0]), cs[1..], specOk);
    }
  }

  // ---------------------------------------------------------------- what the last change says

  predicate Concerns(c: Change, id: string) {
    !c.Restart? && c.id == id
  }

  lemma StepTenants(s: State, c: Change, id: string, specOk: string -> bool)
    requires CanHappen(s.db, c) && id in s.db.fleets
    ensures var f, fs := s.db.fleets[id], Next(s, c, specOk).db.fleets;
            && id in fs && fs[id].tenant == f.tenant && (f.deleted ==> fs[id] == f)
            && (!Concerns(c, id) ==> fs[id] == f)
    ensures Next(s, c, specOk).db.tenants == s.db.tenants
  {
    hide Reconciled, JobTable;
  }

  /** Over any run a fleet stays with its tenant, a deleted fleet is never changed again, and a fleet that no
      change concerns stays as it is. */
  lemma {:induction false} FleetsStay(s: State, cs: seq<Change>, id: string, specOk: string -> bool)
    requires AllCanHappen(s, cs, specOk) && id in s.db.fleets
    ensures var f, fs := s.db.fleets[id], After(s, cs, specOk).db.fleets;
            && id in fs && fs[id].tenant == f.tenant && (f.deleted ==> fs[id] == f)
            && ((forall c :: c in cs ==> !Concerns(c, id)) ==> fs[id] == f)
    decreases |cs|
  {
    hide Next, CanHappen;
    if cs != [] {
      assert cs[0] in cs && forall c :: c in cs[1..] ==> c in cs;
      StepTenants(s, cs[0], id, specOk);
      FleetsStay(Next(s, cs[0], specOk), cs[1..], id, specOk);
    }
  }

  lemma {:induction false} RunSplits(s: State, front: seq<Change>, back: seq<Change>, specOk: string -> bool)
    requires AllCanHappen(s, front + back, specOk)
    ensures AllCanHappen(s, front, specOk) && AllCanHappen(After(s, front, specOk), back, specOk)
    ensures After(s, front + back, specOk) == After(After(s, front, specOk), back, specOk)
    decreases |front|
  {
    hide Next, CanHappen;
    if front == [] {
      assert front + back == back;
    } else {
      assert (front + back)[0] == front[0] && (front + back)[1..] == front[1..] + back;
      RunSplits(Next(s, front[0], specOk), front[1..], back, specOk);
    }
  }

  /** The policy of a fleet is the one of the last change that concerns it: after any run, the fleet's job is in the
      table exactly when that change gave a schedule that is accepted and a pack, and the fleet is not lost; the job
      then is for this schedule, pack and tenant. After a deletion there is none. */
  lemma LastChangeCounts(s: State, lost: set<string>, front: seq<Change>, c: Change, back: seq<Change>,
                         id: string, specOk: string -> bool)
    requires s.table == JobTable(s.db, lost, specOk) && AllCanHappen(s, front + ([c] + back), specOk)
    requires Concerns(c, id) && forall d :: d in back ==> !Concerns(d, id)
    ensures var cs := front + ([c] + back);
            var table := After(s, cs, specOk).table;
            && (c.Delete? ==> JobId(id) !in table)
            && (!c.Delete? ==>
                  && (JobId(id) in table <==>
                      c.spec != "" && specOk(c.spec) && c.packKey != "" && id !in LostOver(s, lost, cs, specOk))
                  && (JobId(id) in table ==> table[JobId(id)] == Job(c.spec, c.tenant, id, c.packKey)))
  {
    var cs := front + ([c] + back);
    RunSplits(s, front, [c] + back, specOk);
    var before := After(s, front, specOk);
    assert ([c] + back)[1..] == back;
    var entered := Next(before, c, specOk);
    ChangeEnters(before, c, id, specOk);
    FleetsStay(entered, back, id, specOk);
    RunKeepsTable(s, lost, cs, specOk);
    var end := After(s, cs, specOk);
    hide Next, CanHappen, JobTable, After, LostOver;
    TableAt(end.db, LostOver(s, lost, cs, specOk), specOk, id);
  }

  lemma ChangeEnters(s: State, c: Change, id: string, specOk: string -> bool)
    requires CanHappen(s.db, c) && Concerns(c, id)
    ensures var fs := Next(s, c, specOk).db.fleets;
            && id in fs && (c.Delete? ==> fs[id].deleted)
            && (!c.Delete? ==> fs[id] == Fleet(c.tenant, c.spec, c.packKey, false))
  {
    hide Reconciled, JobTable;
  }

  /** Under another tenant's name nothing is read, so the job is only dropped. */
  lemma OtherTenantDrops(t: Table, db: Db, tenant: string, id: string, specOk: string -> bool)
    requires id in db.fleets && db.fleets[id].tenant != tenant
    ensures Reconciled(t, db, tenant, id, false, specOk) == t - {JobId(id)}
  {
  }

  /** Every read succeeds and no restart happens. */
  predicate Smooth(cs: seq<Change>) {
    forall c :: c in cs ==> !c.Restart? && ((c.Create? || c.Update?) ==> !c.readFails)
  }

  lemma {:induction false} SmoothLosesNothing(s: State, lost: set<string>, cs: seq<Change>, specOk: string -> bool)
    requires Smooth(cs)
    ensures LostOver(s, lost, cs, specOk) <= lost
    decreases |cs|
  {
    hide Next;
    if cs != [] {
      assert cs[0] in cs;
      var s' := Next(s, cs[0], specOk);
      SmoothLosesNothing(s', LostAfter(s'.db, lost, cs[0]), cs[1..], specOk);
    }
  }

  /** From an empty scheduler, changes that are all read well leave exactly the jobs the policies ask for,
      which is what a restart then builds exactly when it reaches every wanted fleet. */
  lemma IncrementalIsBatch(s: State, cs: seq<Change>, failing: set<string>, specOk: string -> bool)
    requires s.table == map[] && s.db.fleets == map[] && AllCanHappen(s, cs, specOk) && Smooth(cs)
    ensures var s' := After(s, cs, specOk);
            && s'.table == JobTable(s'.db, {}, specOk)
            && (Next(s', Restart(failing, map[]), specOk).table == s'.table <==>
                forall id :: Wanted(s'.db, id, specOk) ==> Reached(s'.db, id, failing))
  {
    var s' := After(s, cs, specOk);
    TableIs(s.table, s.db, {}, specOk);
    hide JobTable;
    RunKeepsTable(s, {}, cs, specOk);
    SmoothLosesNothing(s, {}, cs, specOk);
    assert LostOver(s, {}, cs, specOk) == {};
    var batch := JobTable(s'.db, Unreached(s'.db, failing), specOk);
    if batch == s'.table {
      forall id | Wanted(s'.db, id, specOk) ensures Reached(s'.db, id, failing) {
        TableAt(s'.db, {}, specOk, id);
        TableAt(s'.db, Unreached(s'.db, failing), specOk, id);
      }
    }
    if forall id :: Wanted(s'.db, id, specOk) ==> Reached(s'.db, id, failing) {
      LostAlike(s'.db, {}, Unreached(s'.db, failing), specOk);
    }
  }

  /** A wanted fleet of the system tenant, which a change has just entered, is gone after a restart. */
  lemma SystemFleetLost(s: State, id: string, failing: set<string>, own: Table, specOk: string -> bool)
    requires Wanted(s.db, id, specOk) && s.db.fleets[id].tenant == SYSTEM
    ensures JobId(id) in Reconciled(s.table, s.db, SYSTEM, id, false, specOk)
    ensures JobId(id) !in Next(s, Restart(failing, own), specOk).table
  {
    TableAt(s.db, Unreached(s.db, failing), specOk, id);
  }
}
