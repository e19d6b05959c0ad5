/**
 internal/domain/audit/sqliterepo/repo.go, repo_hash_version.go and key_epoch.go, transition.go,
 keyrotation/rotator.go and internal/platform/signer/swappable.go: how the tenants' audit chains and
 the table of chain keys grow under one server process after another, and what an export contains.
 */
module AuditWriter {
  import opened Common
  import opened Bytes
  import opened Audit
  import opened ExportVerify

  /** What a caller and the clock contribute to an entry. */
  datatype Request = Request(
    tenantId: string,
    occurredAt: string,
    actor: Actor,
    action: string,
    target: Target,
    payloadDigest: Hash,
    outcome: string,
    error: Option<ErrorInfo>,
    leaderEpoch: Option<int>)

  /** How an entry came about: the hash version it was written with, and the server start it was written
      after. Neither is stored. */
  datatype Origin = Origin(version: HashVersion, boot: nat)

  /** One tenant's entries and its rows of the key table, in the order of their epochs. */
  datatype TenantChain = TenantChain(log: seq<Entry>, origins: seq<Origin>, rows: seq<EpochRow>)

  /** What a running server holds in memory: its system tenant, whether it records epochs, the cached
      transition number (0 while there is none), and the signer with its epoch. */
  datatype Process = Process(
    boot: nat,
    home: string,
    recordsEpochs: bool,
    transition: int,
    epoch: int,
    keyId: string,
    publicKeyHex: string)

  datatype Ledger = Ledger(chains: map<string, TenantChain>, p: Process)

  const SYSTEM := "system"

  /** The row that the migration inserts; triggers keep it as it is. */
  const BOOTSTRAP_ROW := EpochRow(1, "__bootstrap__", "__bootstrap__")

  function ChainOf(c: Ledger, tenant: string): TenantChain {
    if tenant in c.chains then c.chains[tenant] else TenantChain([], [], [])
  }

  function WriterVersion(transition: int, seqNo: int): HashVersion {
    if transition > 0 && seqNo > transition then V3 else V1
  }

  function HeadHash(log: seq<Entry>): Hash {
    if log == [] then ZeroHash() else log[|log| - 1].hash
  }

  function Unhashed(log: seq<Entry>, tenant: string, req: Request, p: Process): Entry {
    Entry(tenant, |log| + 1, req.occurredAt, req.actor, req.action, req.target,
          req.payloadDigest, req.outcome, req.error, HeadHash(log), ZeroHash(), req.leaderEpoch,
          if p.recordsEpochs && p.epoch > 0 then Some(p.epoch) else None)
  }

  function NewEntry(log: seq<Entry>, tenant: string, req: Request, p: Process, hr: Hasher): Entry {
    var e := Unhashed(log, tenant, req, p);
    e.(hash := EntryHash(e, WriterVersion(p.transition, e.seqNo), hr))
  }

  /** Append: the cached transition number is the process's, whichever tenant the entry is for. */
  function Extended(ch: TenantChain, tenant: string, req: Request, p: Process, hr: Hasher): TenantChain {
    ch.(log := ch.log + [NewEntry(ch.log, tenant, req, p, hr)],
        origins := ch.origins + [Origin(WriterVersion(p.transition, |ch.log| + 1), p.boot)])
  }

  function Append(c: Ledger, tenant: string, req: Request, hr: Hasher): Ledger {
    c.(chains := c.chains[tenant := Extended(ChainOf(c, tenant), tenant, req, c.p, hr)])
  }

  /** FindHashVersionTransitionSeq: the number of the first marker, or 0. */
  function MarkerSeq(log: seq<Entry>): (k: nat)
    ensures k <= |log|
    ensures k > 0 ==> log[k - 1].action == MARKER_ACTION
    ensures forall i :: 0 <= i < |log| && (k == 0 || i < k - 1) ==> log[i].action != MARKER_ACTION
  {
    if log == [] then 0
    else
      var n := |log| - 1;
      var k := MarkerSeq(log[..n]);
      if k > 0 then k else if log[n].action == MARKER_ACTION then |log| else 0
  }

  /** The number of the next epoch: one more than the last row's, or than the signer's. */
  function NewEpoch(rows: seq<EpochRow>, p: Process): int {
    if rows == [] then p.epoch + 1 else rows[|rows| - 1].epoch + 1
  }

  /** The table takes the row: the epoch is a primary key over all tenants, the key ID one per tenant. */
  predicate Insertable(c: Ledger, row: EpochRow) {
    && (forall t :: t in c.chains ==> forall r :: r in c.chains[t].rows ==> r.epoch != row.epoch)
    && (forall r :: r in ChainOf(c, c.p.home).rows ==> r.keyId != row.keyId)
  }

  // ---------------------------------------------------------------- what can happen

  datatype Event =
    | Record(req: Request)
    | EnsureTransition(req: Request)
    | RotateKey(req: Request, keyId: string, publicKeyHex: string)
    | Restart(home: string, recordsEpochs: bool, keyId: string, publicKeyHex: string)

  /** Ordinary callers use neither reserved action; keys are well formed. */
  predicate Allowed(c: Ledger, ev: Event) {
    match ev
    case Record(req) => req.action != MARKER_ACTION && req.action != ROTATION_ACTION
    case EnsureTransition(req) => req.action == MARKER_ACTION
    case RotateKey(req, _, pub) => c.p.recordsEpochs && req.action == ROTATION_ACTION && DecodeKey(pub).Some?
    case Restart(_, _, _, pub) => DecodeKey(pub).Some?
  }

  /** EnsureTransition looks for the marker in the system tenant's chain, appends it if there is none, and
      caches its number afterwards. RotateKey records the rotation before the new key becomes active, and
      changes nothing when the table refuses the row. A restart forgets the number and starts from the
      platform key under epoch 1. */
  function Next(c: Ledger, ev: Event, hr: Hasher): Ledger {
    match ev
    case Record(req) => Append(c, req.tenantId, req, hr)
    case EnsureTransition(req) =>
      var k := MarkerSeq(ChainOf(c, c.p.home).log);
      if k > 0 then c.(p := c.p.(transition := k))
      else
        var c' := Append(c, c.p.home, req, hr);
        c'.(p := c.p.(transition := |ChainOf(c', c.p.home).log|))
    case RotateKey(req, keyId, pub) =>
      var row := EpochRow(NewEpoch(ChainOf(c, c.p.home).rows, c.p), keyId, pub);
      if !Insertable(c, row) then c
      else
        var ch := Extended(ChainOf(c, c.p.home), c.p.home, req, c.p, hr);
        Ledger(c.chains[c.p.home := ch.(rows := ch.rows + [row])],
               c.p.(epoch := row.epoch, keyId := keyId, publicKeyHex := pub))
    case Restart(home, recordsEpochs, keyId, pub) =>
      c.(p := Process(c.p.boot + 1, home, recordsEpochs, 0, 1, keyId, pub))
  }

  /** After the migrations: only the system tenant has a row. */
  function Start(home: string, recordsEpochs: bool, keyId: string, publicKeyHex: string): Ledger {
    Ledger(map[SYSTEM := TenantChain([], [], [BOOTSTRAP_ROW])],
           Process(0, home, recordsEpochs, 0, 1, keyId, publicKeyHex))
  }

  function After(c: Ledger, evs: seq<Event>, hr: Hasher): Ledger
    decreases |evs|
  {
    if evs == [] then c else After(Next(c, evs[0], hr), evs[1..], hr)
  }

  predicate AllAllowed(c: Ledger, evs: seq<Event>, hr: Hasher)
    decreases |evs|
  {
    evs == [] || (Allowed(c, evs[0]) && AllAllowed(Next(c, evs[0], hr), evs[1..], hr))
  }

  // ---------------------------------------------------------------- what always holds of a chain

  predicate IsMarker(e: Entry) {
    e.action == MARKER_ACTION
  }

  predicate Linked(log: seq<Entry>, i: nat)
    requires i < |log|
  {
    log[i].seqNo == i + 1 && log[i].prevHash == HeadHash(log[..i])
  }

  predicate HashedAs(e: Entry, v: HashVersion, hr: Hasher) {
    e.hash == EntryHash(e, v, hr)
  }

  predicate ChainInv(ch: TenantChain, hr: Hasher) {
    && |ch.origins| == |ch.log|
    && (forall i :: 0 <= i < |ch.log| ==> Linked(ch.log, i) && HashedAs(ch.log[i], ch.origins[i].version, hr))
    && (forall i, j :: 0 <= i < j < |ch.log| ==> !(IsMarker(ch.log[i]) && IsMarker(ch.log[j])))
  }

  predicate SameBoot(ch: TenantChain, i: nat)
    requires 0 < i < |ch.origins|
  {
    ch.origins[i - 1].boot == ch.origins[i].boot
  }

  predicate Listed(epoch: int, rows: seq<EpochRow>) {
    exists k :: 0 <= k < |rows| && rows[k].epoch == epoch
  }

  /** A rotation has an epoch: 1 if it is the first of its server start, and otherwise one of the table.
      It is above its predecessor's exactly when that is a rotation of the same start. */
  predicate RotationStep(ch: TenantChain, i: nat)
    requires i < |ch.log| == |ch.origins|
  {
    IsRotation(ch.log[i]) ==>
      && ch.log[i].keyEpoch.Some?
      && (ch.log[i].keyEpoch.value == 1 || (ch.log[i].keyEpoch.value > 1 && Listed(ch.log[i].keyEpoch.value, ch.rows)))
      && (i > 0 && ch.log[i - 1].keyEpoch.Some? ==>
            (ch.log[i].keyEpoch.value > ch.log[i - 1].keyEpoch.value <==>
             IsRotation(ch.log[i - 1]) && SameBoot(ch, i)))
  }

  predicate EpochInv(ch: TenantChain)
    requires |ch.origins| == |ch.log|
  {
    forall i :: 0 <= i < |ch.log| ==>
      RotationStep(ch, i) && (ch.log[i].keyEpoch.Some? ==> ch.log[i].keyEpoch.value >= 1)
  }

  /** Epochs grow from row to row. Every row has a usable key and an epoch above 1, except the migration's
      row, which the system tenant has first. */
  predicate RowsInv(tenant: string, rows: seq<EpochRow>) {
    && (forall j, k :: 0 <= j < k < |rows| ==> rows[j].epoch < rows[k].epoch)
    && (forall k :: 0 <= k < |rows| ==>
          if tenant == SYSTEM && k == 0 then rows[k] == BOOTSTRAP_ROW
          else rows[k].epoch > 1 && DecodeKey(rows[k].publicKeyHex).Some?)
    && (tenant == SYSTEM ==> rows != [])
  }

  /** How the end of a chain stands to the running process. */
  predicate Meets(tenant: string, ch: TenantChain, p: Process)
    requires |ch.origins| == |ch.log|
  {
    ch.log != [] ==>
      var n := |ch.log| - 1;
      && ch.origins[n].boot <= p.boot
      && (ch.origins[n].boot == p.boot ==>
            && (ch.log[n].keyEpoch.Some? <==> p.recordsEpochs)
            && (p.recordsEpochs && tenant == p.home ==>
                  if IsRotation(ch.log[n]) then p.epoch > ch.log[n].keyEpoch.value
                  else p.epoch == ch.log[n].keyEpoch.value))
  }

  /** A process that has not yet written to its own chain still has its first epoch, and any later one is in
      its table. */
  predicate ProcessInv(p: Process, ch: TenantChain) {
    && p.epoch >= 1 && DecodeKey(p.publicKeyHex).Some?
    && (p.epoch > 1 ==> Listed(p.epoch, ch.rows))
    && (ch.log == [] || |ch.origins| != |ch.log| || ch.origins[|ch.log| - 1].boot < p.boot ==> p.epoch == 1)
    && (p.transition != 0 ==> p.transition == MarkerSeq(ch.log))
  }

  predicate TenantInv(tenant: string, ch: TenantChain, p: Process, hr: Hasher) {
    ChainInv(ch, hr) && EpochInv(ch) && RowsInv(tenant, ch.rows) && Meets(tenant, ch, p)
  }

  predicate ChainsInv(chains: map<string, TenantChain>, p: Process, hr: Hasher) {
    SYSTEM in chains && forall t :: t in chains ==> TenantInv(t, chains[t], p, hr)
  }

  predicate Inv(c: Ledger, hr: Hasher) {
    ChainsInv(c.chains, c.p, hr) && ProcessInv(c.p, ChainOf(c, c.p.home))
  }

  // ---------------------------------------------------------------- one more entry

  lemma HashIgnoresHash(e: Entry, h: Hash, v: HashVersion, hr: Hasher)
    ensures EntryHash(e.(hash := h), v, hr) == EntryHash(e, v, hr)
  {
  }

  lemma NewEntryIs(log: seq<Entry>, tenant: string, req: Request, p: Process, hr: Hasher)
    ensures var e := NewEntry(log, tenant, req, p, hr);
            && e.seqNo == |log| + 1 && e.prevHash == HeadHash(log) && e.action == req.action
            && e.keyEpoch == (if p.recordsEpochs && p.epoch > 0 then Some(p.epoch) else None)
            && HashedAs(e, WriterVersion(p.transition, |log| + 1), hr)
  {
    hide EntryHash;
    var e := Unhashed(log, tenant, req, p);
    var v := WriterVersion(p.transition, |log| + 1);
    HashIgnoresHash(e, EntryHash(e, v, hr), v, hr);
  }

  lemma MarkerLast(log: seq<Entry>, e: Entry)
    ensures MarkerSeq(log + [e]) == if MarkerSeq(log) > 0 then MarkerSeq(log) else if IsMarker(e) then |log| + 1 else 0
  {
    assert (log + [e])[..|log|] == log;
  }

  lemma ExtendChain(ch: TenantChain, tenant: string, req: Request, p: Process, hr: Hasher)
    requires ChainInv(ch, hr) && (req.action == MARKER_ACTION ==> MarkerSeq(ch.log) == 0)
    ensures ChainInv(Extended(ch, tenant, req, p, hr), hr)
  {
    var e := NewEntry(ch.log, tenant, req, p, hr);
    NewEntryIs(ch.log, tenant, req, p, hr);
    hide NewEntry, EntryHash, HeadHash, WriterVersion;
    var ch' := Extended(ch, tenant, req, p, hr);
    forall i | 0 <= i < |ch'.log|
      ensures Linked(ch'.log, i) && HashedAs(ch'.log[i], ch'.origins[i].version, hr)
    {
      if i < |ch.log| {
        assert Linked(ch.log, i) && HashedAs(ch.log[i], ch.origins[i].version, hr);
        assert ch'.log[..i] == ch.log[..i];
      } else {
        assert ch'.log[..i] == ch.log;
      }
    }
  }

  /** Whether the entry may be a rotation here: in its own chain, under epochs, with an epoch that is the
      first of this start, or that of the last rotation. */
  predicate RotationFits(ch: TenantChain, tenant: string, p: Process)
    requires |ch.origins| == |ch.log|
  {
    && tenant == p.home && p.recordsEpochs
    && (p.epoch == 1 || Listed(p.epoch, ch.rows))
    && (ch.log == [] || ch.origins[|ch.log| - 1].boot < p.boot ==> p.epoch == 1)
  }

  lemma ExtendEpochs(ch: TenantChain, tenant: string, req: Request, p: Process, hr: Hasher)
    requires |ch.origins| == |ch.log| && EpochInv(ch) && Meets(tenant, ch, p) && p.epoch >= 1
    requires req.action == ROTATION_ACTION ==> RotationFits(ch, tenant, p)
    ensures EpochInv(Extended(ch, tenant, req, p, hr))
  {
    var e := NewEntry(ch.log, tenant, req, p, hr);
    NewEntryIs(ch.log, tenant, req, p, hr);
    hide NewEntry, HashedAs, HeadHash, WriterVersion;
    var ch' := Extended(ch, tenant, req, p, hr);
    var n := |ch.log|;
    forall i | 0 <= i < |ch'.log|
      ensures RotationStep(ch', i) && (ch'.log[i].keyEpoch.Some? ==> ch'.log[i].keyEpoch.value >= 1)
    {
      if i < n {
        assert RotationStep(ch, i);
        SameStep(ch, ch', i);
      } else {
        LastStep(ch, ch', tenant, p);
      }
    }
  }

  /** Longer chains and longer tables keep the step at i. */
  lemma SameStep(ch: TenantChain, ch': TenantChain, i: nat)
    requires |ch.origins| == |ch.log| && |ch'.origins| == |ch'.log| && i < |ch.log|
    requires ch.log <= ch'.log && ch.origins <= ch'.origins && ch.rows <= ch'.rows
    requires RotationStep(ch, i)
    ensures RotationStep(ch', i)
  {
    if IsRotation(ch.log[i]) && ch.log[i].keyEpoch.Some? {
      ListedMore(ch.log[i].keyEpoch.value, ch.rows, ch'.rows);
    }
  }

  lemma ListedMore(epoch: int, rows: seq<EpochRow>, rows': seq<EpochRow>)
    requires rows <= rows'
    ensures Listed(epoch, rows) ==> Listed(epoch, rows')
  {
    if k :| 0 <= k < |rows| && rows[k].epoch == epoch {
      assert rows'[k].epoch == epoch;
    }
  }

  lemma LastStep(ch: TenantChain, ch': TenantChain, tenant: string, p: Process)
    requires |ch.origins| == |ch.log| && Meets(tenant, ch, p) && p.epoch >= 1
    requires forall i :: 0 <= i < |ch.log| && ch.log[i].keyEpoch.Some? ==> ch.log[i].keyEpoch.value >= 1
    requires |ch'.log| == |ch'.origins| == |ch.log| + 1 && ch'.rows == ch.rows
    requires ch.log <= ch'.log && ch.origins <= ch'.origins && ch'.origins[|ch.log|].boot == p.boot
    requires ch'.log[|ch.log|].keyEpoch == if p.recordsEpochs then Some(p.epoch) else None
    requires IsRotation(ch'.log[|ch.log|]) ==> RotationFits(ch, tenant, p)
    ensures RotationStep(ch', |ch.log|)
  {
    hide Listed;
  }

  /** Appending keeps the chain's end in step with the process; a rotation does once the epoch is raised. */
  lemma ExtendMeets(ch: TenantChain, tenant: string, req: Request, p: Process, p': Process, hr: Hasher)
    requires |ch.origins| == |ch.log| && p.epoch >= 1
    requires p'.boot == p.boot && p'.home == p.home && p'.recordsEpochs == p.recordsEpochs
    requires if req.action == ROTATION_ACTION then p'.epoch > p.epoch else p'.epoch == p.epoch
    ensures Meets(tenant, Extended(ch, tenant, req, p, hr), p')
  {
    NewEntryIs(ch.log, tenant, req, p, hr);
    hide NewEntry, HashedAs, HeadHash, WriterVersion;
  }

  // ---------------------------------------------------------------- one event

  lemma ChainOfInv(c: Ledger, tenant: string, hr: Hasher)
    requires Inv(c, hr)
    ensures TenantInv(tenant, ChainOf(c, tenant), c.p, hr)
  {
  }

  /** A process that differs only in its transition number meets the same chains. */
  lemma MeetsAlike(tenant: string, ch: TenantChain, p: Process, p': Process)
    requires |ch.origins| == |ch.log| && Meets(tenant, ch, p)
    requires p'.boot == p.boot && p'.recordsEpochs == p.recordsEpochs && p'.home == p.home
    requires p'.epoch == p.epoch || tenant != p.home
    ensures Meets(tenant, ch, p')
  {
  }

  lemma SizesOk(ch: TenantChain, hr: Hasher)
    requires ChainInv(ch, hr)
    ensures |ch.origins| == |ch.log|
  {
  }

  /** The chain an entry goes to, for an entry that is no rotation. */
  lemma AppendOne(ch: TenantChain, tenant: string, req: Request, p: Process, hr: Hasher)
    requires TenantInv(tenant, ch, p, hr) && p.epoch >= 1 && req.action != ROTATION_ACTION
    requires req.action == MARKER_ACTION ==> MarkerSeq(ch.log) == 0
    ensures TenantInv(tenant, Extended(ch, tenant, req, p, hr), p, hr)
  {
    hide ChainInv, EpochInv, RowsInv, Meets, EntryHash, NewEntry, DecodeKey;
    var ch' := Extended(ch, tenant, req, p, hr);
    SizesOk(ch, hr);
    ExtendChain(ch, tenant, req, p, hr);
    SizesOk(ch', hr);
    ExtendEpochs(ch, tenant, req, p, hr);
    ExtendMeets(ch, tenant, req, p, p, hr);
  }

  /** The chains, when the tenants' epochs stay what they are and one chain is replaced. */
  lemma OneChain(c: Ledger, tenant: string, ch': TenantChain, p': Process, hr: Hasher)
    requires Inv(c, hr) && TenantInv(tenant, ch', p', hr)
    requires p'.boot == c.p.boot && p'.home == c.p.home && p'.recordsEpochs == c.p.recordsEpochs
    requires p'.epoch == c.p.epoch || tenant == c.p.home
    ensures ChainsInv(c.chains[tenant := ch'], p', hr)
  {
    hide ChainInv, EpochInv, RowsInv, Meets;
    forall t | t in c.chains && t != tenant ensures TenantInv(t, c.chains[t], p', hr) {
      assert TenantInv(t, c.chains[t], c.p, hr);
      SizesOk(c.chains[t], hr);
      MeetsAlike(t, c.chains[t], c.p, p');
    }
  }

  /** The transition number, after an entry in the system tenant's chain. */
  lemma MarkerAfter(ch: TenantChain, tenant: string, req: Request, p: Process, hr: Hasher)
    ensures MarkerSeq(Extended(ch, tenant, req, p, hr).log)
            == if MarkerSeq(ch.log) > 0 then MarkerSeq(ch.log)
               else if req.action == MARKER_ACTION then |ch.log| + 1 else 0
  {
    NewEntryIs(ch.log, tenant, req, p, hr);
    MarkerLast(ch.log, NewEntry(ch.log, tenant, req, p, hr));
  }

  /** An entry that is no rotation, in any tenant's chain; a marker sets the transition number. */
  lemma AppendKeeps(c: Ledger, tenant: string, req: Request, p': Process, hr: Hasher)
    requires Inv(c, hr) && req.action != ROTATION_ACTION
    requires req.action == MARKER_ACTION ==> tenant == c.p.home && MarkerSeq(ChainOf(c, tenant).log) == 0
    requires p' == if req.action == MARKER_ACTION then c.p.(transition := |ChainOf(c, tenant).log| + 1) else c.p
    ensures Inv(Append(c, tenant, req, hr).(p := p'), hr)
  {
    var ch := ChainOf(c, tenant);
    var ch' := Extended(ch, tenant, req, c.p, hr);
    ChainOfInv(c, tenant, hr);
    hide ChainInv, EpochInv, RowsInv, Meets, EntryHash, NewEntry, DecodeKey, MarkerSeq, Listed;
    AppendOne(ch, tenant, req, c.p, hr);
    SizesOk(ch, hr);
    SizesOk(ch', hr);
    MeetsAlike(tenant, ch', c.p, p');
    OneChain(c, tenant, ch', p', hr);
    if tenant == c.p.home {
      ProcessExtended(ch, req, c.p, p', hr);
    }
    hide ChainsInv, TenantInv, ProcessInv, Extended;
    AppendedHome(c, tenant, req, p', hr);
  }

  lemma AppendedHome(c: Ledger, tenant: string, req: Request, p': Process, hr: Hasher)
    requires p'.home == c.p.home
    ensures var c' := Append(c, tenant, req, hr).(p := p');
            ChainOf(c', c'.p.home) == if tenant == c.p.home then Extended(ChainOf(c, tenant), tenant, req, c.p, hr)
                                      else ChainOf(c, c.p.home)
  {
    hide Extended;
  }

  /** The process and its own chain, after an entry in it that is no rotation. */
  lemma ProcessExtended(ch: TenantChain, req: Request, p: Process, p': Process, hr: Hasher)
    requires ProcessInv(p, ch) && |ch.origins| == |ch.log|
    requires req.action == MARKER_ACTION ==> MarkerSeq(ch.log) == 0
    requires p' == if req.action == MARKER_ACTION then p.(transition := |ch.log| + 1) else p
    ensures ProcessInv(p', Extended(ch, p.home, req, p, hr))
  {
    MarkerAfter(ch, p.home, req, p, hr);
    hide NewEntry, MarkerSeq, DecodeKey, Listed, WriterVersion;
  }

  lemma EpochAbove(ch: TenantChain, tenant: string, p: Process)
    requires RowsInv(tenant, ch.rows) && p.epoch >= 1 && (p.epoch > 1 ==> Listed(p.epoch, ch.rows))
    ensures NewEpoch(ch.rows, p) > p.epoch
    ensures forall k :: 0 <= k < |ch.rows| ==> ch.rows[k].epoch < NewEpoch(ch.rows, p)
  {
    hide DecodeKey;
  }

  lemma RowsGrow(tenant: string, rows: seq<EpochRow>, row: EpochRow)
    requires RowsInv(tenant, rows) && row.epoch > 1 && DecodeKey(row.publicKeyHex).Some?
    requires forall k :: 0 <= k < |rows| ==> rows[k].epoch < row.epoch
    ensures RowsInv(tenant, rows + [row]) && Listed(row.epoch, rows + [row])
  {
    hide DecodeKey;
    assert (rows + [row])[|rows|] == row;
  }

  /** The chain with the rotation entry, and its longer table. */
  lemma RotateOne(ch: TenantChain, tenant: string, req: Request, row: EpochRow, p: Process, p': Process, hr: Hasher)
    requires TenantInv(tenant, ch, p, hr) && p.epoch >= 1 && RotationFits(ch, tenant, p)
    requires req.action == ROTATION_ACTION && DecodeKey(row.publicKeyHex).Some?
    requires p.epoch > 1 ==> Listed(p.epoch, ch.rows)
    requires row.epoch == NewEpoch(ch.rows, p)
    requires p' == p.(epoch := row.epoch, keyId := row.keyId, publicKeyHex := row.publicKeyHex)
    ensures var ch' := Extended(ch, tenant, req, p, hr);
            TenantInv(tenant, ch'.(rows := ch'.rows + [row]), p', hr)
    ensures Listed(row.epoch, ch.rows + [row]) && row.epoch > 1
  {
    EpochAbove(ch, tenant, p);
    hide EntryHash, NewEntry, DecodeKey, NewEpoch;
    RowsGrow(tenant, ch.rows, row);
    hide RowsInv, Listed;
    var ch' := Extended(ch, tenant, req, p, hr);
    ExtendChain(ch, tenant, req, p, hr);
    ExtendEpochs(ch, tenant, req, p, hr);
    ExtendMeets(ch, tenant, req, p, p', hr);
    RowsAdded(tenant, ch', row, p', hr);
  }

  lemma RowsAdded(tenant: string, ch: TenantChain, row: EpochRow, p: Process, hr: Hasher)
    requires ChainInv(ch, hr) && EpochInv(ch) && Meets(tenant, ch, p)
    ensures var ch' := ch.(rows := ch.rows + [row]);
            ChainInv(ch', hr) && EpochInv(ch') && Meets(tenant, ch', p)
  {
    var ch' := ch.(rows := ch.rows + [row]);
    hide Linked, HashedAs, RotationStep;
    forall i | 0 <= i < |ch.log| ensures RotationStep(ch', i) {
      assert RotationStep(ch, i);
      SameStep(ch, ch', i);
    }
    assert forall i :: 0 <= i < |ch.log| ==> Linked(ch.log, i) && HashedAs(ch.log[i], ch.origins[i].version, hr);
  }

  lemma RotateKeeps(c: Ledger, req: Request, keyId: string, pub: string, hr: Hasher)
    requires Inv(c, hr) && Allowed(c, RotateKey(req, keyId, pub))
    ensures Inv(Next(c, RotateKey(req, keyId, pub), hr), hr)
  {
    var ch := ChainOf(c, c.p.home);
    var row := EpochRow(NewEpoch(ch.rows, c.p), keyId, pub);
    ChainOfInv(c, c.p.home, hr);
    if Insertable(c, row) {
      hide ChainInv, EpochInv, RowsInv, Meets, EntryHash, NewEntry, DecodeKey, MarkerSeq, Listed, NewEpoch, Insertable;
      SizesOk(ch, hr);
      var p' := c.p.(epoch := row.epoch, keyId := keyId, publicKeyHex := pub);
      RotateOne(ch, c.p.home, req, row, c.p, p', hr);
      var ch' := Extended(ch, c.p.home, req, c.p, hr);
      var ch'' := ch'.(rows := ch'.rows + [row]);
      OneChain(c, c.p.home, ch'', p', hr);
      ProcessRotated(ch, req, row, c.p, p', hr);
      hide ChainsInv, TenantInv, ProcessInv, Extended;
    }
  }

  lemma ProcessRotated(ch: TenantChain, req: Request, row: EpochRow, p: Process, p': Process, hr: Hasher)
    requires ProcessInv(p, ch) && |ch.origins| == |ch.log| && req.action == ROTATION_ACTION
    requires row.epoch > 1 && DecodeKey(row.publicKeyHex).Some? && Listed(row.epoch, ch.rows + [row])
    requires p' == p.(epoch := row.epoch, keyId := row.keyId, publicKeyHex := row.publicKeyHex)
    ensures var ch' := Extended(ch, p.home, req, p, hr);
            ProcessInv(p', ch'.(rows := ch'.rows + [row]))
  {
    MarkerAfter(ch, p.home, req, p, hr);
    hide NewEntry, MarkerSeq, DecodeKey, Listed, WriterVersion;
  }

  lemma RestartKeeps(c: Ledger, home: string, recordsEpochs: bool, keyId: string, pub: string, hr: Hasher)
    requires Inv(c, hr) && DecodeKey(pub).Some?
    ensures Inv(Next(c, Restart(home, recordsEpochs, keyId, pub), hr), hr)
  {
    hide ChainInv, EpochInv, RowsInv, EntryHash, DecodeKey, MarkerSeq, Listed;
    var p' := Process(c.p.boot + 1, home, recordsEpochs, 0, 1, keyId, pub);
    forall t | t in c.chains ensures TenantInv(t, c.chains[t], p', hr) {
      assert TenantInv(t, c.chains[t], c.p, hr);
      SizesOk(c.chains[t], hr);
    }
    ChainOfInv(c, home, hr);
    SizesOk(ChainOf(c, home), hr);
  }

  lemma NextKeepsInv(c: Ledger, ev: Event, hr: Hasher)
    requires Inv(c, hr) && Allowed(c, ev)
    ensures Inv(Next(c, ev, hr), hr)
  {
    hide Inv, DecodeKey, EntryHash, Extended, MarkerSeq, Insertable;
    match ev
    case Record(req) => AppendKeeps(c, req.tenantId, req, c.p, hr);
    case EnsureTransition(req) => EnsureKeeps(c, req, hr);
    case RotateKey(req, keyId, pub) => RotateKeeps(c, req, keyId, pub, hr);
    case Restart(home, recordsEpochs, keyId, pub) => RestartKeeps(c, home, recordsEpochs, keyId, pub, hr);
  }

  lemma EnsureKeeps(c: Ledger, req: Request, hr: Hasher)
    requires Inv(c, hr) && req.action == MARKER_ACTION
    ensures Inv(Next(c, EnsureTransition(req), hr), hr)
  {
    var ch := ChainOf(c, c.p.home);
    if MarkerSeq(ch.log) == 0 {
      hide Inv, Extended;
      AppendKeeps(c, c.p.home, req, c.p.(transition := |ch.log| + 1), hr);
      AppendedHome(c, c.p.home, req, c.p, hr);
      OneLonger(ch, c.p.home, req, c.p, hr);
    } else {
      CacheKeeps(c, hr);
    }
  }

  lemma OneLonger(ch: TenantChain, tenant: string, req: Request, p: Process, hr: Hasher)
    ensures |Extended(ch, tenant, req, p, hr).log| == |ch.log| + 1
  {
    hide NewEntry;
  }

  /** Caching the number of a marker that is there. */
  lemma CacheKeeps(c: Ledger, hr: Hasher)
    requires Inv(c, hr) && MarkerSeq(ChainOf(c, c.p.home).log) > 0
    ensures Inv(c.(p := c.p.(transition := MarkerSeq(ChainOf(c, c.p.home).log))), hr)
  {
    hide ChainInv, EpochInv, RowsInv, Meets, EntryHash, DecodeKey, MarkerSeq, Listed;
    var p' := c.p.(transition := MarkerSeq(ChainOf(c, c.p.home).log));
    forall t | t in c.chains ensures TenantInv(t, c.chains[t], p', hr) {
      assert TenantInv(t, c.chains[t], c.p, hr);
      SizesOk(c.chains[t], hr);
      MeetsAlike(t, c.chains[t], c.p, p');
    }
  }

  /** The invariant holds over every run, through restarts and changes of the system tenant. */
  lemma {:induction false} RunsKeepInv(c: Ledger, evs: seq<Event>, hr: Hasher)
    requires Inv(c, hr) && AllAllowed(c, evs, hr)
    ensures Inv(After(c, evs, hr), hr)
    decreases |evs|
  {
    hide Inv, Allowed, Next;
    if evs != [] {
      NextKeepsInv(c, evs[0], hr);
      RunsKeepInv(Next(c, evs[0], hr), evs[1..], hr);
    }
  }

  lemma StartInv(home: string, recordsEpochs: bool, keyId: string, pub: string, hr: Hasher)
    requires DecodeKey(pub).Some?
    ensures Inv(Start(home, recordsEpochs, keyId, pub), hr)
  {
    hide DecodeKey, EntryHash;
  }

  lemma AlwaysInv(home: string, recordsEpochs: bool, keyId: string, pub: string, evs: seq<Event>, hr: Hasher)
    requires DecodeKey(pub).Some? && AllAllowed(Start(home, recordsEpochs, keyId, pub), evs, hr)
    ensures Inv(After(Start(home, recordsEpochs, keyId, pub), evs, hr), hr)
  {
    hide DecodeKey, Inv, Start;
    StartInv(home, recordsEpochs, keyId, pub, hr);
    RunsKeepInv(Start(home, recordsEpochs, keyId, pub), evs, hr);
  }

  // ---------------------------------------------------------------- what each event does

  /** What the caller asked to record is what the new entry says; it has the next number and the hash of its
      predecessor, or zeros. */
  lemma EntryRecords(log: seq<Entry>, tenant: string, req: Request, p: Process, hr: Hasher)
    ensures var e := NewEntry(log, tenant, req, p, hr);
            && e.tenantId == tenant && e.occurredAt == req.occurredAt && e.actor == req.actor && e.target == req.target
            && e.payloadDigest == req.payloadDigest && e.outcome == req.outcome && e.error == req.error
            && e.leaderEpoch == req.leaderEpoch && e.action == req.action && e.seqNo == |log| + 1
            && e.keyEpoch == (if p.recordsEpochs && p.epoch > 0 then Some(p.epoch) else None)
            && (log == [] ==> forall b :: b in e.prevHash ==> b == 0)
            && (log != [] ==> e.prevHash == log[|log| - 1].hash)
  {
    hide EntryHash;
  }

  /** A record adds one entry at the end of its tenant's chain and changes nothing else. It is hashed with the third
      version exactly when a transition number is cached and the chain has reached it. */
  lemma RecordMeans(c: Ledger, req: Request, hr: Hasher)
    requires Inv(c, hr)
    ensures var c' := Next(c, Record(req), hr);
            var ch, ch' := ChainOf(c, req.tenantId), ChainOf(c', req.tenantId);
            && c'.p == c.p && ch'.rows == ch.rows
            && |ch'.log| == |ch.log| + 1 && ch'.log[..|ch.log|] == ch.log
            && (forall t :: t != req.tenantId ==> ChainOf(c', t) == ChainOf(c, t))
            && HashedAs(ch'.log[|ch.log|], if 0 < c.p.transition <= |ch.log| then V3 else V1, hr)
  {
    NewEntryIs(ChainOf(c, req.tenantId).log, req.tenantId, req, c.p, hr);
    hide NewEntry, Inv, EntryHash;
  }

  /** Afterwards the system tenant has a marker and its number is cached; where it had one nothing is added. */
  lemma TransitionEnsured(c: Ledger, req: Request, hr: Hasher)
    requires Inv(c, hr) && req.action == MARKER_ACTION
    ensures var c' := Next(c, EnsureTransition(req), hr);
            var log, log' := ChainOf(c, c.p.home).log, ChainOf(c', c'.p.home).log;
            && c'.p == c.p.(transition := c'.p.transition)
            && 0 < c'.p.transition <= |log'| && IsMarker(log'[c'.p.transition - 1])
            && ((exists i :: 0 <= i < |log| && IsMarker(log[i])) ==> c'.chains == c.chains)
            && ((forall i :: 0 <= i < |log| ==> !IsMarker(log[i])) ==>
                  |log'| == |log| + 1 && log'[..|log|] == log && c'.p.transition == |log'|)
            && (forall t :: t != c.p.home ==> ChainOf(c', t) == ChainOf(c, t))
  {
    var log := ChainOf(c, c.p.home).log;
    NewEntryIs(log, c.p.home, req, c.p, hr);
    hide NewEntry, Inv, EntryHash;
    assert MarkerSeq(log) > 0 ==> IsMarker(log[MarkerSeq(log) - 1]);
  }

  /** A rotation that the table takes is recorded under the old epoch; the new key is then active, under the next
      epoch, and has a row. One that the table refuses changes nothing. */
  lemma RotationMeans(c: Ledger, req: Request, keyId: string, pub: string, hr: Hasher)
    requires Inv(c, hr) && c.p.recordsEpochs
    ensures var c' := Next(c, RotateKey(req, keyId, pub), hr);
            var ch, ch' := ChainOf(c, c.p.home), ChainOf(c', c.p.home);
            c' == c || (
              && |ch'.log| == |ch.log| + 1 && ch'.log[..|ch.log|] == ch.log
              && ch'.log[|ch.log|].keyEpoch == Some(c.p.epoch)
              && ch'.rows == ch.rows + [EpochRow(c'.p.epoch, keyId, pub)]
              && c'.p == c.p.(epoch := c'.p.epoch, keyId := keyId, publicKeyHex := pub)
              && c'.p.epoch == 1 + (if ch.rows == [] then c.p.epoch else ch.rows[|ch.rows| - 1].epoch)
              && (forall t :: t != c.p.home ==> ChainOf(c', t) == ChainOf(c, t)))
  {
    NewEntryIs(ChainOf(c, c.p.home).log, c.p.home, req, c.p, hr);
    hide NewEntry, EntryHash, Insertable, ChainsInv;
  }

  /** A restart leaves the chains alone and forgets the transition number and the epoch. */
  lemma RestartMeans(c: Ledger, home: string, recordsEpochs: bool, keyId: string, pub: string, hr: Hasher)
    ensures var c' := Next(c, Restart(home, recordsEpochs, keyId, pub), hr);
            && c'.chains == c.chains && c'.p.home == home && c'.p.recordsEpochs == recordsEpochs
            && c'.p.transition == 0 && c'.p.epoch == 1 && c'.p.keyId == keyId && c'.p.publicKeyHex == pub
            && c'.p.boot == c.p.boot + 1
  {
  }

  /** Over all tenants no two rows have one epoch, and no tenant has two rows with one key ID. */
  predicate KeysTold(c: Ledger) {
    && (forall t, u, i, j ::
          (&& t in c.chains && 0 <= i < |c.chains[t].rows|
           && u in c.chains && 0 <= j < |c.chains[u].rows| && (t != u || i != j)) ==>
            c.chains[t].rows[i].epoch != c.chains[u].rows[j].epoch)
    && (forall t, i, j :: t in c.chains && 0 <= i < j < |c.chains[t].rows| ==>
          c.chains[t].rows[i].keyId != c.chains[t].rows[j].keyId)
  }

  lemma NextTells(c: Ledger, ev: Event, hr: Hasher)
    requires KeysTold(c)
    ensures KeysTold(Next(c, ev, hr))
  {
    hide NewEntry, MarkerSeq, NewEpoch;
    if ev.RotateKey? {
      var row := EpochRow(NewEpoch(ChainOf(c, c.p.home).rows, c.p), ev.keyId, ev.publicKeyHex);
      var c' := Next(c, ev, hr);
      if c' != c {
        RowAdded(c, c', row);
      }
    }
  }

  lemma RowAdded(c: Ledger, c': Ledger, row: EpochRow)
    requires KeysTold(c) && Insertable(c, row) && c'.chains.Keys == c.chains.Keys + {c.p.home}
    requires forall t :: t in c.chains && t != c.p.home ==> c'.chains[t] == c.chains[t]
    requires c'.chains[c.p.home].rows == ChainOf(c, c.p.home).rows + [row]
    ensures KeysTold(c')
  {
    forall t, i | t in c'.chains && 0 <= i < |c'.chains[t].rows| && (t != c.p.home || i < |c'.chains[t].rows| - 1)
      ensures t in c.chains && i < |c.chains[t].rows| && c'.chains[t].rows[i] == c.chains[t].rows[i]
      ensures c'.chains[t].rows[i].epoch != row.epoch
    {
      assert c.chains[t].rows[i] in c.chains[t].rows;
    }
  }

  /** The key table keeps its two keys over every run: the epoch over all tenants, the key ID within one. */
  lemma {:induction false} RunsTell(c: Ledger, evs: seq<Event>, hr: Hasher)
    requires KeysTold(c)
    ensures KeysTold(After(c, evs, hr))
    decreases |evs|
  {
    hide Next, KeysTold;
    if evs != [] {
      NextTells(c, evs[0], hr);
      RunsTell(Next(c, evs[0], hr), evs[1..], hr);
    }
  }

  /** The row that the migration inserts, in plain words. */
  lemma StartMeans(home: string, recordsEpochs: bool, keyId: string, pub: string)
    ensures var c := Start(home, recordsEpochs, keyId, pub);
            && KeysTold(c) && c.chains.Keys == {"system"}
            && c.chains["system"] == TenantChain([], [], [EpochRow(1, "__bootstrap__", "__bootstrap__")])
  {
  }

  // ---------------------------------------------------------------- who has keys

  /** The system tenant stays the one of the migration. */
  predicate HomeKept(evs: seq<Event>) {
    forall ev :: ev in evs && ev.Restart? ==> ev.home == SYSTEM
  }

  predicate OnlySystemRows(c: Ledger) {
    c.p.home == SYSTEM && forall t :: t in c.chains && t != SYSTEM ==> c.chains[t].rows == []
  }

  /** As long as the system tenant keeps its name, no other tenant ever has a key row. */
  lemma {:induction false} RowsOnlyAtHome(c: Ledger, evs: seq<Event>, hr: Hasher)
    requires OnlySystemRows(c) && HomeKept(evs)
    ensures OnlySystemRows(After(c, evs, hr))
    decreases |evs|
  {
    if evs != [] {
      assert evs[0] in evs;
      assert forall ev :: ev in evs[1..] ==> ev in evs;
      NextRows(c, evs[0], hr);
      hide Next;
      RowsOnlyAtHome(Next(c, evs[0], hr), evs[1..], hr);
    }
  }

  lemma NextRows(c: Ledger, ev: Event, hr: Hasher)
    requires OnlySystemRows(c) && (ev.Restart? ==> ev.home == SYSTEM)
    ensures OnlySystemRows(Next(c, ev, hr))
  {
    hide NewEntry, MarkerSeq, Insertable;
  }

  // ---------------------------------------------------------------- exports

  datatype Format = F1 | F2 | F3

  function Label(f: Format): string {
    match f
    case F1 => ""
    case F2 => V2_LABEL
    case F3 => V3_LABEL
  }

  /** fromSeq and toSeq as the exporter corrects them. */
  function Low(fromSeq: int): (lo: int)
    ensures lo >= 1
  {
    if fromSeq <= 0 then 1 else fromSeq
  }

  function High(log: seq<Entry>, fromSeq: int, toSeq: int): int {
    if toSeq <= 0 || toSeq < Low(fromSeq) then |log| else toSeq
  }

  /** The entry as written out: only the third format carries the leader epoch. */
  function Wire(e: Entry, f: Format): Entry {
    if f == F3 then e else e.(leaderEpoch := None)
  }

  function WireAll(log: seq<Entry>, f: Format): (es: seq<Entry>)
    ensures |es| == |log|
    ensures forall i :: 0 <= i < |es| ==> es[i] == Wire(log[i], f)
  {
    seq(|log|, i requires 0 <= i < |log| => Wire(log[i], f))
  }

  /** The rows between the two numbers, in order. */
  function Selected(log: seq<Entry>, lo: int, hi: int): seq<Entry>
    requires lo >= 1
  {
    var top := if hi < |log| then hi else |log|;
    if top < lo then [] else log[lo - 1..top]
  }

  /** resolveTransitionAt: the process's number or, while there is none, the chain's own marker; announced
      only by the third format, and only inside the range. */
  function AnnouncedTransition(ch: TenantChain, p: Process, lo: int, hi: int, f: Format): int {
    var t := if p.transition != 0 then p.transition else MarkerSeq(ch.log);
    if f == F3 && lo <= t <= hi then t else 0
  }

  datatype Encoding = Encoding(entry: Entry -> Data, sigLine: SigLine -> Data, sign: Hash -> Data)

  function Stream(es: seq<Entry>, enc: Encoding): Data {
    if es == [] then [] else enc.entry(es[0]) + [NEWLINE] + Stream(es[1..], enc)
  }

  function SignatureOf(ch: TenantChain, p: Process, lo: int, hi: int, f: Format, stream: Data, hr: Hasher,
                       enc: Encoding): SigLine
  {
    var digest := hr.sha(stream);
    SigLine(Label(f), if f == F1 then [] else ch.rows, lo, AnnouncedTransition(ch, p, lo, hi, f), p.keyId,
            p.publicKeyHex, HexEncode(digest), HexEncode(enc.sign(digest)), hi)
  }

  /** Export, ExportV2 and ExportV3 with a key repository: the decompressed bundle of one tenant. */
  function Bundle(c: Ledger, tenant: string, fromSeq: int, toSeq: int, f: Format, hr: Hasher, enc: Encoding): Data {
    var ch := ChainOf(c, tenant);
    var lo, hi := Low(fromSeq), High(ch.log, fromSeq, toSeq);
    var stream := Stream(WireAll(Selected(ch.log, lo, hi), f), enc);
    stream + enc.sigLine(SignatureOf(ch, c.p, lo, hi, f, stream, hr, enc)) + [NEWLINE]
  }
}
