/**
 internal/domain/audit/audit.go and hash.go: audit entries and what their hashes cover.
 */
module Audit {
  import opened Common
  import opened Bytes

  datatype Actor = Actor(kind: string, id: string, ip: string, userAgent: string)

  datatype Target = Target(kind: string, id: string)

  datatype ErrorInfo = ErrorInfo(code: string, message: string)

  /** occurredAt is the instant as canonical UTC text. */
  datatype Entry = Entry(
    tenantId: string,
    seqNo: int,
    occurredAt: string,
    actor: Actor,
    action: string,
    target: Target,
    payloadDigest: Hash,
    outcome: string,
    error: Option<ErrorInfo>,
    prevHash: Hash,
    hash: Hash,
    leaderEpoch: Option<int>,
    keyEpoch: Option<int>)

  const MARKER_ACTION := "audit.chain.hash_version_changed"
  const ROTATION_ACTION := "audit.chain.key_rotated"

  // ---------------------------------------------------------------- canonical metadata

  /** A JSON object as the ordered list of its members. */
  datatype Value = Text(s: string) | Number(n: int) | Object(fields: Doc)

  datatype Field = Field(key: string, value: Value)

  type Doc = seq<Field>

  /** omitempty on a string. */
  function OptText(key: string, s: string): Doc {
    if s == "" then [] else [Field(key, Text(s))]
  }

  /** omitempty on a pointer. */
  function OptNumber(key: string, n: Option<int>): Doc {
    match n
    case None => []
    case Some(v) => [Field(key, Number(v))]
  }

  function ActorDoc(a: Actor): Doc {
    [Field("id", Text(a.id))] + OptText("ip", a.ip) + [Field("type", Text(a.kind))]
    + OptText("userAgent", a.userAgent)
  }

  function HeadDoc(e: Entry): Doc {
    [Field("action", Text(e.action)), Field("actor", Object(ActorDoc(e.actor)))]
  }

  function TailDoc(e: Entry): Doc {
    [Field("occurredAt", Text(e.occurredAt)), Field("outcome", Text(e.outcome)),
     Field("seq", Number(e.seqNo)),
     Field("target", Object([Field("id", Text(e.target.id)), Field("type", Text(e.target.kind))])),
     Field("tenantId", Text(e.tenantId))]
  }

  /** canonicalMetaJSONv1: seven members. */
  function MetaV1(e: Entry): Doc {
    HeadDoc(e) + TailDoc(e)
  }

  function EpochDoc(e: Entry): Doc {
    OptNumber("keyEpoch", e.keyEpoch) + OptNumber("leaderEpoch", e.leaderEpoch)
  }

  /** canonicalMetaJSONv3: the two epochs join, each only when it is set. */
  function MetaV3(e: Entry): Doc {
    HeadDoc(e) + EpochDoc(e) + TailDoc(e)
  }

  /** The hash function and the JSON text of a document. */
  datatype Hasher = Hasher(sha: Data -> Hash, json: Doc -> Data)

  ghost predicate Injective(json: Doc -> Data) {
    forall a, b :: json(a) == json(b) ==> a == b
  }

  datatype HashVersion = V1 | V3

  function Meta(e: Entry, v: HashVersion): Doc {
    match v
    case V1 => MetaV1(e)
    case V3 => MetaV3(e)
  }

  /** computeEntryHash: what is hashed for an entry. */
  function Preimage(e: Entry, v: HashVersion, hr: Hasher): Data {
    e.prevHash + e.payloadDigest + hr.json(Meta(e, v))
  }

  function EntryHash(e: Entry, v: HashVersion, hr: Hasher): Hash {
    hr.sha(Preimage(e, v, hr))
  }

  /** What is hashed, part by part. */
  lemma PreimageParts(e: Entry, v: HashVersion, hr: Hasher)
    ensures var d := Preimage(e, v, hr);
            |d| >= 64 && d[..32] == e.prevHash && d[32..64] == e.payloadDigest && d[64..] == hr.json(Meta(e, v))
    ensures EntryHash(e, v, hr) == hr.sha(e.prevHash + e.payloadDigest + hr.json(Meta(e, v)))
  {
  }

  function Keys(d: Doc): (keys: seq<string>)
    ensures |keys| == |d|
  {
    seq(|d|, i requires 0 <= i < |d| => d[i].key)
  }

  function If(b: bool, key: string): seq<string> {
    if b then [key] else []
  }

  /** The members of the canonical documents, in the order of their names. */
  lemma CanonicalKeys(e: Entry)
    ensures Keys(MetaV1(e)) == ["action", "actor", "occurredAt", "outcome", "seq", "target", "tenantId"]
    ensures Keys(MetaV3(e)) ==
            ["action", "actor"] + If(e.keyEpoch.Some?, "keyEpoch") + If(e.leaderEpoch.Some?, "leaderEpoch")
            + ["occurredAt", "outcome", "seq", "target", "tenantId"]
    ensures Keys(TailDoc(e)[3].value.fields) == ["id", "type"]
    ensures Keys(ActorDoc(e.actor)) ==
            ["id"] + If(e.actor.ip != "", "ip") + ["type"] + If(e.actor.userAgent != "", "userAgent")
  {
    EndKeys(e);
    ActorKeys(e.actor);
    var h, m, t := HeadDoc(e), EpochDoc(e), TailDoc(e);
    KeysTogether(OptNumber("keyEpoch", e.keyEpoch), OptNumber("leaderEpoch", e.leaderEpoch));
    KeysTogether(h, t);
    KeysTogether(h, m);
    KeysTogether(h + m, t);
    hide HeadDoc, TailDoc, ActorDoc, Keys;
  }

  lemma KeysTogether(a: Doc, b: Doc)
    ensures Keys(a + b) == Keys(a) + Keys(b)
  {
  }

  lemma EndKeys(e: Entry)
    ensures Keys(HeadDoc(e)) == ["action", "actor"]
    ensures Keys(TailDoc(e)) == ["occurredAt", "outcome", "seq", "target", "tenantId"]
    ensures Keys(TailDoc(e)[3].value.fields) == ["id", "type"]
    ensures forall key, n :: Keys(OptNumber(key, n)) == If(n.Some?, key)
  {
    hide ActorDoc;
  }

  lemma ActorKeys(a: Actor)
    ensures Keys(ActorDoc(a)) == ["id"] + If(a.ip != "", "ip") + ["type"] + If(a.userAgent != "", "userAgent")
  {
  }

  // ---------------------------------------------------------------- what is covered

  /** The fields both hash versions cover. */
  predicate SameSeven(a: Entry, b: Entry) {
    && a.tenantId == b.tenantId && a.seqNo == b.seqNo && a.occurredAt == b.occurredAt
    && a.actor == b.actor && a.action == b.action && a.target == b.target && a.outcome == b.outcome
  }

  predicate SameEpochs(a: Entry, b: Entry) {
    a.keyEpoch == b.keyEpoch && a.leaderEpoch == b.leaderEpoch
  }

  predicate SameMeta(a: Entry, b: Entry, v: HashVersion) {
    SameSeven(a, b) && (v == V3 ==> SameEpochs(a, b))
  }

  /** Everything a hash version pins in an entry: its metadata, its payload and its place in the chain. */
  predicate SameCovered(a: Entry, b: Entry, v: HashVersion) {
    SameMeta(a, b, v) && a.payloadDigest == b.payloadDigest && a.prevHash == b.prevHash
  }

  lemma ActorDocInjective(a: Actor, b: Actor)
    ensures ActorDoc(a) == ActorDoc(b) <==> a == b
  {
    if ActorDoc(a) == ActorDoc(b) {
      var x, y := ActorDoc(a), ActorDoc(b);
      assert x[0] == y[0];
      assert x[1] == y[1];
      var i := if a.ip == "" then 1 else 2;
      assert x[i] == Field("type", Text(a.kind));
      assert (x[1].key == "ip") == (a.ip != "") && (y[1].key == "ip") == (b.ip != "");
      assert y[i] == Field("type", Text(b.kind));
      assert (|x| > i + 1) == (a.userAgent != "") && (|y| > i + 1) == (b.userAgent != "");
      assert a.userAgent != "" ==> x[i + 1] == Field("userAgent", Text(a.userAgent));
      assert b.userAgent != "" ==> y[i + 1] == Field("userAgent", Text(b.userAgent));
    }
  }

  /** Two members before and five after: the two ends of a document tell the seven fields. */
  lemma EndsTellSeven(a: Entry, b: Entry, m: Doc, n: Doc)
    requires HeadDoc(a) + m + TailDoc(a) == HeadDoc(b) + n + TailDoc(b)
    ensures SameSeven(a, b) && m == n
  {
    var x, y := HeadDoc(a) + m + TailDoc(a), HeadDoc(b) + n + TailDoc(b);
    assert |x| == |m| + 7 && |y| == |n| + 7;
    assert x[0] == HeadDoc(a)[0] && y[0] == HeadDoc(b)[0];
    assert x[1] == HeadDoc(a)[1] && y[1] == HeadDoc(b)[1];
    ActorDocInjective(a.actor, b.actor);
    var k := |m| + 2;
    assert x[k..] == TailDoc(a) && y[k..] == TailDoc(b);
    assert TailDoc(a) == TailDoc(b);
    TailTells(a, b);
    assert x[2..k] == m && y[2..k] == n;
  }

  lemma TailTells(a: Entry, b: Entry)
    requires TailDoc(a) == TailDoc(b)
    ensures a.occurredAt == b.occurredAt && a.outcome == b.outcome && a.seqNo == b.seqNo
    ensures a.target == b.target && a.tenantId == b.tenantId
  {
    forall i | 0 <= i < 5 ensures TailDoc(a)[i] == TailDoc(b)[i] {
    }
    var p, q := TailDoc(a)[3].value.fields, TailDoc(b)[3].value.fields;
    assert p[0] == q[0] && p[1] == q[1];
  }

  lemma EpochDocInjective(a: Entry, b: Entry)
    ensures EpochDoc(a) == EpochDoc(b) <==> SameEpochs(a, b)
    ensures EpochDoc(a) == [] <==> a.keyEpoch.None? && a.leaderEpoch.None?
  {
    if EpochDoc(a) == EpochDoc(b) && EpochDoc(a) != [] {
      assert EpochDoc(a)[0] == EpochDoc(b)[0];
      assert |EpochDoc(a)| == 2 ==> EpochDoc(a)[1] == EpochDoc(b)[1];
    }
  }

  /** Equal documents of one version mean equal covered fields, and the other way round. */
  lemma MetaTells(a: Entry, b: Entry, v: HashVersion)
    ensures Meta(a, v) == Meta(b, v) <==> SameMeta(a, b, v)
  {
    EpochDocInjective(a, b);
    assert MetaV1(a) == HeadDoc(a) + [] + TailDoc(a) && MetaV1(b) == HeadDoc(b) + [] + TailDoc(b);
    if Meta(a, v) == Meta(b, v) {
      if v == V1 {
        EndsTellSeven(a, b, [], []);
      } else {
        EndsTellSeven(a, b, EpochDoc(a), EpochDoc(b));
      }
    }
  }

  /** The two versions give one entry the same document exactly when it carries no epoch. */
  lemma VersionsAgree(e: Entry)
    ensures MetaV1(e) == MetaV3(e) <==> e.keyEpoch.None? && e.leaderEpoch.None?
  {
    EpochDocInjective(e, e);
    if MetaV1(e) == MetaV3(e) {
      assert MetaV1(e) == HeadDoc(e) + [] + TailDoc(e);
      EndsTellSeven(e, e, [], EpochDoc(e));
    }
  }

  /** Whatever the versions, equal documents carry the same sequence number. */
  lemma SeqTold(a: Entry, va: HashVersion, b: Entry, vb: HashVersion)
    requires Meta(a, va) == Meta(b, vb)
    ensures a.seqNo == b.seqNo
  {
    assert MetaV1(a) == HeadDoc(a) + [] + TailDoc(a) && MetaV1(b) == HeadDoc(b) + [] + TailDoc(b);
    hide HeadDoc, TailDoc, EpochDoc;
    EndsTellSeven(a, b, if va == V1 then [] else EpochDoc(a), if vb == V1 then [] else EpochDoc(b));
  }

  lemma PreimageTells(a: Entry, va: HashVersion, b: Entry, vb: HashVersion, hr: Hasher)
    requires Injective(hr.json) && Preimage(a, va, hr) == Preimage(b, vb, hr)
    ensures a.prevHash == b.prevHash && a.payloadDigest == b.payloadDigest
    ensures Meta(a, va) == Meta(b, vb)
  {
    var x, y := Preimage(a, va, hr), Preimage(b, vb, hr);
    assert x[..32] == a.prevHash && y[..32] == b.prevHash;
    assert x[32..64] == a.payloadDigest && y[32..64] == b.payloadDigest;
    assert x[64..] == hr.json(Meta(a, va)) && y[64..] == hr.json(Meta(b, vb));
  }
}
