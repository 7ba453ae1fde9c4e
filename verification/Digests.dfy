/**
 * The digests of the ledger (apps/wire/src/krater/krater.ts): SHA-256 over the
 * canonical JSON text of a record. SHA-256 itself is a parameter, so every claim
 * about digests ends in "equal, or here are two texts with one hash".
 */
module Digests {
  import opened Wrappers
  import opened Decimals
  import opened CanonicalJson
  import opened JsonIdentity
  import NumberText

  type Sha256 = string -> string

  /** The immutable attributes of an event, besides its sequence number and digests. */
  datatype Envelope = Envelope(
    eventId: string,
    kind: string,
    objectKind: string,
    objectId: string,
    objectVersion: nat,
    createdAt: string,
    actorFellowId: Option<string>,
    actorSponsorId: Option<string>,
    actorSessionId: Option<string>,
    modelString: Option<string>,
    harness: Option<string>,
    writerCredentialId: Option<string>)

  /** What is hashed: a text as it stands, or one of the chain's records. */
  datatype Preimage =
    | Raw(text: string)
    | GenesisRecord(problem: string)
    | LinkRecord(problem: string, seq_: nat, payloadSha256: string, rowDigest: string, previous: string)
    | RowRecord(problem: string, seq_: nat, payloadSha256: string, envelope: Envelope)
    | CheckpointRecord(problem: string, seq_: nat, root: string)

  type Hash = Preimage -> string

  /** Two different preimages of one kind with the same hash. */
  datatype Collision = Collision(left: Preimage, right: Preimage)

  predicate SameKind(a: Preimage, b: Preimage) {
    && a.Raw? == b.Raw? && a.GenesisRecord? == b.GenesisRecord? && a.LinkRecord? == b.LinkRecord?
    && a.RowRecord? == b.RowRecord? && a.CheckpointRecord? == b.CheckpointRecord?
  }

  predicate Collides(sha: Hash, c: Collision) {
    c.left != c.right && SameKind(c.left, c.right) && sha(c.left) == sha(c.right)
  }

  // ----- the records that are hashed

  function NatNumber(n: nat): Double {
    var digits := NatText(n);
    NumberText.FromDecimal(false, digits, |digits|)
  }

  function NatJson(n: nat): Json {
    Num(NatNumber(n))
  }

  function NullableJson(s: Option<string>): Json {
    if s.Some? then Str(s.value) else Null
  }

  function Record(keys: seq<string>, values: seq<Json>): (members: seq<Member>)
    requires |keys| == |values|
    ensures |members| == |keys|
    ensures forall i :: 0 <= i < |keys| ==> members[i] == Member(keys[i], values[i])
  {
    seq(|keys|, i requires 0 <= i < |keys| => Member(keys[i], values[i]))
  }

  const CHAIN_VERSION := 2

  const GENESIS_KEYS := ["chain_version", "kind", "problem_id"]
  const LINK_KEYS :=
    ["chain_version", "payload_sha256", "previous_chain_digest", "problem_id", "row_digest", "seq"]
  const CHECKPOINT_KEYS := ["chain_version", "checkpoint_version", "problem_id", "root_chain_digest", "seq"]
  const ROW_KEYS :=
    ["chain_version", "created_at", "actor_fellow_id", "actor_session_id", "actor_sponsor_id", "event_id",
     "harness", "model_string_self_declared", "object_id", "object_kind", "object_version",
     "payload_sha256", "problem_id", "seq", "type", "writer_credential_id"]

  function GenesisValues(problem: string): seq<Json> {
    [NatJson(CHAIN_VERSION), Str("krater.genesis"), Str(problem)]
  }

  function LinkValues(problem: string, seq_: nat, payloadSha256: string, rowDigest: string, previous: string): seq<Json> {
    [NatJson(CHAIN_VERSION), Str(payloadSha256), Str(previous), Str(problem), Str(rowDigest), NatJson(seq_)]
  }

  function RowValues(problem: string, seq_: nat, payloadSha256: string, e: Envelope): seq<Json> {
    [NatJson(CHAIN_VERSION), Str(e.createdAt), NullableJson(e.actorFellowId), NullableJson(e.actorSessionId),
     NullableJson(e.actorSponsorId), Str(e.eventId), NullableJson(e.harness), NullableJson(e.modelString),
     Str(e.objectId), Str(e.objectKind), NatJson(e.objectVersion), Str(payloadSha256), Str(problem),
     NatJson(seq_), Str(e.kind), NullableJson(e.writerCredentialId)]
  }

  function RecordText(keys: seq<string>, values: seq<Json>): string
    requires |keys| == |values|
  {
    var text := ValueText(Obj(Record(keys, values)));
    if text.Ok? then text.value else ""
  }

  function GenesisText(problem: string): string {
    RecordText(GENESIS_KEYS, GenesisValues(problem))
  }

  function LinkText(problem: string, seq_: nat, payloadSha256: string, rowDigest: string, previous: string): string {
    RecordText(LINK_KEYS, LinkValues(problem, seq_, payloadSha256, rowDigest, previous))
  }

  function RowText(problem: string, seq_: nat, payloadSha256: string, e: Envelope): string {
    RecordText(ROW_KEYS, RowValues(problem, seq_, payloadSha256, e))
  }

  function CheckpointText(problem: string, seq_: nat, root: string): string {
    RecordText(CHECKPOINT_KEYS, [NatJson(CHAIN_VERSION), NatJson(1), Str(problem), Str(root), NatJson(seq_)])
  }

  // ----- a record's text determines its values

  /** Values that always print: no number that could be refused, nothing nested. */
  predicate Plain(v: Json) {
    match v
    case Num(x) => Finite(x)
    case Arr(_) => false
    case Obj(_) => false
    case _ => true
  }

  lemma {:induction false} RecordLookup(keys: seq<string>, values: seq<Json>, i: nat)
    requires |keys| == |values| && Distinct(keys) && i < |keys|
    ensures keys[i] in Keys(Record(keys, values))
    ensures Lookup(Record(keys, values), keys[i]) == values[i]
  {
    hide Keys, Lookup;
    var members := Record(keys, values);
    assert Keys(members)[i] == keys[i];
    var v := Lookup(members, keys[i]);
    var j :| 0 <= j < |members| && members[j] == Member(keys[i], v);
    assert keys[j] == keys[i];
  }

  lemma RecordKeys(keys: seq<string>, values: seq<Json>)
    requires |keys| == |values|
    ensures Keys(Record(keys, values)) == keys
  {
    hide Keys;
    var k := Keys(Record(keys, values));
    assert forall i :: 0 <= i < |keys| ==> k[i] == keys[i];
  }

  lemma PlainPrints(v: Json)
    requires Plain(v)
    ensures ValueText(v).Ok?
  {
  }

  lemma {:induction false} EntriesPrint(members: seq<Member>, keys: seq<string>, first: bool)
    requires forall i :: 0 <= i < |keys| ==> keys[i] in Keys(members)
    requires forall i :: 0 <= i < |members| ==> Plain(members[i].value)
    ensures EntriesText(members, keys, first).Ok?
  {
    hide Keys;
    if keys != [] {
      EntriesPrint(members, keys[1..], false);
      assert Plain(Lookup(members, keys[0]));
      PlainPrints(Lookup(members, keys[0]));
      assert EntryText(members, keys[0]).Ok?;
    }
  }

  /** Records over the same distinct keys have one text only if their values are the same. */
  lemma RecordTextInjective(keys: seq<string>, a: seq<Json>, b: seq<Json>, i: nat)
    requires |keys| == |a| == |b| && Distinct(keys) && i < |keys|
    requires forall j :: 0 <= j < |keys| ==> Plain(a[j]) && Plain(b[j])
    requires RecordText(keys, a) == RecordText(keys, b)
    ensures Same(a[i], b[i])
  {
    hide Keys, EntriesText, SortedKeys, Same;
    var l, r := Record(keys, a), Record(keys, b);
    EntriesPrint(l, SortedKeys(l), true);
    EntriesPrint(r, SortedKeys(r), true);
    PlainRecordWellFormed(keys, a);
    PlainRecordWellFormed(keys, b);
    SameTextExactlyIfSame(Obj(l), Obj(r));
    RecordLookup(keys, a, i);
    RecordLookup(keys, b, i);
    SameMembers(l, r, keys[i]);
  }

  lemma SameMembers(l: seq<Member>, r: seq<Member>, k: string)
    requires Same(Obj(l), Obj(r)) && k in Keys(l)
    ensures k in Keys(r) && Same(Lookup(l, k), Lookup(r, k))
  {
    hide Keys, Lookup;
  }

  lemma PlainRecordWellFormed(keys: seq<string>, values: seq<Json>)
    requires |keys| == |values| && Distinct(keys)
    requires forall j :: 0 <= j < |keys| ==> Plain(values[j])
    ensures WellFormed(Obj(Record(keys, values)))
  {
    RecordKeys(keys, values);
    hide Keys;
  }

  lemma NatNumberDenotes(n: nat)
    ensures Finite(NatNumber(n)) && NumberText.Denotes(NatNumber(n)) == n as real
  {
    hide NatText, ValueOf;
    var digits := NatText(n);
    NumberText.FromDecimalExact(false, digits, |digits|);
  }

  lemma NatJsonInjective(a: nat, b: nat)
    requires Same(NatJson(a), NatJson(b))
    ensures a == b
  {
    hide NatNumber, NumberText.Denotes;
    NatNumberDenotes(a);
    NatNumberDenotes(b);
  }

  // ----- equal digests of one kind of record: equal records, or a collision

  lemma LinkKeysDistinct()
    ensures Distinct(LINK_KEYS)
  {
  }

  lemma CheckpointKeysDistinct()
    ensures Distinct(CHECKPOINT_KEYS)
  {
  }

  lemma RowKeysDistinct()
    ensures Distinct(ROW_KEYS)
  {
  }

  lemma LinkTextInjective(p: string, s: nat, h: string, r: string, d: string,
                          p': string, s': nat, h': string, r': string, d': string)
    requires LinkText(p, s, h, r, d) == LinkText(p', s', h', r', d')
    ensures p == p' && s == s' && h == h' && r == r' && d == d'
  {
    hide RecordText, NatJson;
    LinkKeysDistinct();
    PlainNat(CHAIN_VERSION);
    PlainNat(s);
    PlainNat(s');
    forall i | 0 <= i < 6 ensures Same(LinkValues(p, s, h, r, d)[i], LinkValues(p', s', h', r', d')[i]) {
      RecordTextInjective(LINK_KEYS, LinkValues(p, s, h, r, d), LinkValues(p', s', h', r', d'), i);
    }
    assert Same(LinkValues(p, s, h, r, d)[5], LinkValues(p', s', h', r', d')[5]);
    NatJsonInjective(s, s');
    assert Same(LinkValues(p, s, h, r, d)[1], LinkValues(p', s', h', r', d')[1]);
    assert Same(LinkValues(p, s, h, r, d)[2], LinkValues(p', s', h', r', d')[2]);
    assert Same(LinkValues(p, s, h, r, d)[3], LinkValues(p', s', h', r', d')[3]);
    assert Same(LinkValues(p, s, h, r, d)[4], LinkValues(p', s', h', r', d')[4]);
  }

  lemma PlainNat(n: nat)
    ensures Plain(NatJson(n))
  {
    NatNumberDenotes(n);
  }

  lemma RowValuesPlain(p: string, s: nat, h: string, e: Envelope)
    ensures forall j :: 0 <= j < 16 ==> Plain(RowValues(p, s, h, e)[j])
  {
    hide NatJson;
    PlainNat(CHAIN_VERSION);
    PlainNat(s);
    PlainNat(e.objectVersion);
  }

  lemma RowTextInjective(p: string, s: nat, h: string, e: Envelope, p': string, s': nat, h': string, e': Envelope)
    requires RowText(p, s, h, e) == RowText(p', s', h', e')
    ensures p == p' && s == s' && h == h' && e == e'
  {
    RowKeysDistinct();
    RowValuesPlain(p, s, h, e);
    RowValuesPlain(p', s', h', e');
    hide RecordText, Same, Distinct, Plain;
    var a, b := RowValues(p, s, h, e), RowValues(p', s', h', e');
    assert |a| == |b| == |ROW_KEYS| == 16;
    hide RowValues;
    forall i | 0 <= i < 16 ensures Same(a[i], b[i]) {
      RecordTextInjective(ROW_KEYS, a, b, i);
    }
    RowValuesSame(p, s, h, e, p', s', h', e');
  }

  lemma RowValuesSame(p: string, s: nat, h: string, e: Envelope, p': string, s': nat, h': string, e': Envelope)
    requires forall i :: 0 <= i < 16 ==> Same(RowValues(p, s, h, e)[i], RowValues(p', s', h', e')[i])
    ensures p == p' && s == s' && h == h' && e == e'
  {
    hide NatJson;
    var a, b := RowValues(p, s, h, e), RowValues(p', s', h', e');
    assert Same(a[1], b[1]) && Same(a[5], b[5]) && Same(a[8], b[8]) && Same(a[9], b[9]);
    assert Same(a[11], b[11]) && Same(a[12], b[12]) && Same(a[14], b[14]);
    assert Same(a[10], b[10]) && Same(a[13], b[13]);
    NatJsonInjective(e.objectVersion, e'.objectVersion);
    NatJsonInjective(s, s');
    assert Same(a[2], b[2]) && Same(a[3], b[3]) && Same(a[4], b[4]);
    assert Same(a[6], b[6]) && Same(a[7], b[7]) && Same(a[15], b[15]);
  }

  lemma GenesisKeysDistinct()
    ensures Distinct(GENESIS_KEYS)
  {
  }

  lemma GenesisTextInjective(p: string, p': string)
    requires GenesisText(p) == GenesisText(p')
    ensures p == p'
  {
    hide RecordText, NatJson;
    GenesisKeysDistinct();
    PlainNat(CHAIN_VERSION);
    RecordTextInjective(GENESIS_KEYS, GenesisValues(p), GenesisValues(p'), 2);
  }

  lemma CheckpointTextInjective(p: string, s: nat, r: string, p': string, s': nat, r': string)
    requires CheckpointText(p, s, r) == CheckpointText(p', s', r')
    ensures p == p' && s == s' && r == r'
  {
    hide RecordText, NatJson;
    CheckpointKeysDistinct();
    PlainNat(CHAIN_VERSION);
    PlainNat(1);
    PlainNat(s);
    PlainNat(s');
    var a := [NatJson(CHAIN_VERSION), NatJson(1), Str(p), Str(r), NatJson(s)];
    var b := [NatJson(CHAIN_VERSION), NatJson(1), Str(p'), Str(r'), NatJson(s')];
    forall i | 0 <= i < 5 ensures Same(a[i], b[i]) {
      RecordTextInjective(CHECKPOINT_KEYS, a, b, i);
    }
    assert Same(a[4], b[4]);
    NatJsonInjective(s, s');
    assert Same(a[2], b[2]) && Same(a[3], b[3]);
  }

  // ----- from preimages to the texts that SHA-256 sees

  function TextOf(p: Preimage): string {
    match p
    case Raw(text) => text
    case GenesisRecord(problem) => GenesisText(problem)
    case LinkRecord(problem, s, payload, row, previous) => LinkText(problem, s, payload, row, previous)
    case RowRecord(problem, s, payload, envelope) => RowText(problem, s, payload, envelope)
    case CheckpointRecord(problem, s, root) => CheckpointText(problem, s, root)
  }

  /** The ledger's hash: SHA-256 of the canonical text. */
  function HashOf(sha256: Sha256): Hash {
    p => sha256(TextOf(p))
  }

  /** Records of one kind have one text only if they are the same record. */
  lemma TextOfInjective(a: Preimage, b: Preimage)
    requires SameKind(a, b) && TextOf(a) == TextOf(b)
    ensures a == b
  {
    hide GenesisText, LinkText, RowText, CheckpointText;
    match a
    case Raw(_) =>
    case GenesisRecord(p) => GenesisTextInjective(p, b.problem);
    case LinkRecord(p, s, h, r, d) => LinkTextInjective(p, s, h, r, d, b.problem, b.seq_, b.payloadSha256, b.rowDigest, b.previous);
    case RowRecord(p, s, h, e) => RowTextInjective(p, s, h, e, b.problem, b.seq_, b.payloadSha256, b.envelope);
    case CheckpointRecord(p, s, r) => CheckpointTextInjective(p, s, r, b.problem, b.seq_, b.root);
  }

  /** So a collision of preimages is a collision of SHA-256 itself: two different texts, one digest. */
  lemma TextsCollide(sha256: Sha256, c: Collision)
    requires Collides(HashOf(sha256), c)
    ensures TextOf(c.left) != TextOf(c.right) && sha256(TextOf(c.left)) == sha256(TextOf(c.right))
  {
    hide TextOf;
    if TextOf(c.left) == TextOf(c.right) {
      TextOfInjective(c.left, c.right);
    }
  }
}
