/** Which value each hashed record holds under which key, read back from the text that is hashed. */
module RecordFields {
  import opened Wrappers
  import opened CanonicalJson
  import opened JsonReader
  import opened JsonIdentity
  import opened Digests
  import NumberText

  /** What an object's text says under a key. */
  function FieldOf(text: string, key: string): Option<Json> {
    var read := ReadValue(text);
    if read.Some? && read.value.1 == "" && read.value.0.Obj? && key in Keys(read.value.0.members)
    then Some(Lookup(read.value.0.members, key)) else None
  }

  predicate SaysText(text: string, key: string, s: string) {
    FieldOf(text, key) == Some(Str(s))
  }

  predicate SaysMaybe(text: string, key: string, s: Option<string>) {
    FieldOf(text, key) == Some(if s.Some? then Str(s.value) else Null)
  }

  predicate SaysNat(text: string, key: string, n: nat) {
    var v := FieldOf(text, key);
    v.Some? && v.value.Num? && Finite(v.value.number) && NumberText.Denotes(v.value.number) == n as real
  }

  ghost predicate HasKeys(text: string, keys: seq<string>) {
    forall k :: FieldOf(text, k).Some? <==> k in keys
  }

  lemma RecordPrints(keys: seq<string>, values: seq<Json>)
    requires |keys| == |values| && forall j :: 0 <= j < |values| ==> Plain(values[j])
    ensures ValueText(Obj(Record(keys, values))).Ok?
  {
    var members := Record(keys, values);
    hide EntriesText, SortedKeys, Plain, Keys;
    EntriesPrint(members, SortedKeys(members), true);
    ObjectPrints(members);
  }

  lemma ObjectPrints(members: seq<Member>)
    requires EntriesText(members, SortedKeys(members), true).Ok?
    ensures ValueText(Obj(members)).Ok?
  {
    hide EntriesText, SortedKeys;
  }

  lemma ObjectField(members: seq<Member>, key: string)
    requires ValueText(Obj(members)).Ok?
    ensures FieldOf(ValueText(Obj(members)).value, key) ==
            if key in Keys(members) then Some(Normal(Lookup(members, key))) else None
  {
    hide Normal, Keys, Lookup, ValueText, SortedKeys, ReadValue, NormalEntries;
    CanonicalTextStable(Obj(members));
    var sorted := SortedKeys(members);
    NormalObject(members);
    NormalEntriesKeys(members, sorted);
    SortedKeysComplete(members, key);
    if key in Keys(members) {
      LookupNormal(members, sorted, key);
    }
  }

  lemma RecordField(keys: seq<string>, values: seq<Json>)
    requires |keys| == |values| && Distinct(keys) && forall j :: 0 <= j < |values| ==> Plain(values[j])
    ensures HasKeys(RecordText(keys, values), keys)
    ensures forall i :: 0 <= i < |keys| ==> FieldOf(RecordText(keys, values), keys[i]) == Some(Normal(values[i]))
  {
    var members := Record(keys, values);
    hide Normal, Keys, Lookup, ValueText, FieldOf, Plain, Distinct;
    RecordPrints(keys, values);
    RecordKeys(keys, values);
    forall k ensures FieldOf(RecordText(keys, values), k) == if k in keys then Some(Normal(Lookup(members, k))) else None {
      ObjectField(members, k);
    }
    forall i | 0 <= i < |keys| ensures Lookup(members, keys[i]) == values[i] {
      RecordLookup(keys, values, i);
    }
  }

  lemma NormalObject(members: seq<Member>)
    ensures Normal(Obj(members)) == Obj(NormalEntries(members, SortedKeys(members)))
  {
  }

  lemma NormalNat(n: nat)
    ensures Normal(NatJson(n)).Num? && Finite(Normal(NatJson(n)).number)
    ensures NumberText.Denotes(Normal(NatJson(n)).number) == n as real
  {
    NatNumberDenotes(n);
    hide NatNumber;
  }

  lemma FieldAt(text: string, keys: seq<string>, values: seq<Json>, i: nat)
    requires i < |keys| == |values| && forall j :: 0 <= j < |keys| ==> FieldOf(text, keys[j]) == Some(Normal(values[j]))
    ensures FieldOf(text, keys[i]) == Some(Normal(values[i]))
    ensures values[i].Str? || values[i].Null? ==> FieldOf(text, keys[i]) == Some(values[i])
  {
    hide FieldOf;
  }

  lemma GenesisFields(problem: string)
    ensures var text := GenesisText(problem);
            && HasKeys(text, ["chain_version", "kind", "problem_id"])
            && SaysNat(text, "chain_version", 2)
            && SaysText(text, "kind", "krater.genesis")
            && SaysText(text, "problem_id", problem)
  {
    hide FieldOf, RecordText, NatJson, NumberText.Denotes;
    var text, values := GenesisText(problem), GenesisValues(problem);
    GenesisKeysDistinct();
    PlainNat(2);
    NormalNat(2);
    RecordField(GENESIS_KEYS, values);
    FieldAt(text, GENESIS_KEYS, values, 0);
    FieldAt(text, GENESIS_KEYS, values, 1);
    FieldAt(text, GENESIS_KEYS, values, 2);
  }

  lemma LinkFields(problem: string, seq_: nat, payloadSha256: string, rowDigest: string, previous: string)
    ensures var text := LinkText(problem, seq_, payloadSha256, rowDigest, previous);
            && HasKeys(text, ["chain_version", "payload_sha256", "previous_chain_digest", "problem_id", "row_digest", "seq"])
            && SaysNat(text, "chain_version", 2) && SaysNat(text, "seq", seq_)
            && SaysText(text, "problem_id", problem)
            && SaysText(text, "payload_sha256", payloadSha256)
            && SaysText(text, "row_digest", rowDigest)
            && SaysText(text, "previous_chain_digest", previous)
  {
    hide FieldOf, RecordText, NatJson, NumberText.Denotes;
    var text, values := LinkText(problem, seq_, payloadSha256, rowDigest, previous), LinkValues(problem, seq_, payloadSha256, rowDigest, previous);
    LinkKeysDistinct();
    PlainNat(2);
    PlainNat(seq_);
    NormalNat(2);
    NormalNat(seq_);
    RecordField(LINK_KEYS, values);
    FieldAt(text, LINK_KEYS, values, 0);
    FieldAt(text, LINK_KEYS, values, 1);
    FieldAt(text, LINK_KEYS, values, 2);
    FieldAt(text, LINK_KEYS, values, 3);
    FieldAt(text, LINK_KEYS, values, 4);
    FieldAt(text, LINK_KEYS, values, 5);
  }

  lemma CheckpointFields(problem: string, seq_: nat, root: string)
    ensures var text := CheckpointText(problem, seq_, root);
            && HasKeys(text, ["chain_version", "checkpoint_version", "problem_id", "root_chain_digest", "seq"])
            && SaysNat(text, "chain_version", 2) && SaysNat(text, "checkpoint_version", 1) && SaysNat(text, "seq", seq_)
            && SaysText(text, "problem_id", problem)
            && SaysText(text, "root_chain_digest", root)
  {
    hide FieldOf, RecordText, NatJson, NumberText.Denotes;
    var text := CheckpointText(problem, seq_, root);
    var values := [NatJson(2), NatJson(1), Str(problem), Str(root), NatJson(seq_)];
    CheckpointKeysDistinct();
    PlainNat(2);
    PlainNat(1);
    PlainNat(seq_);
    NormalNat(2);
    NormalNat(1);
    NormalNat(seq_);
    RecordField(CHECKPOINT_KEYS, values);
    FieldAt(text, CHECKPOINT_KEYS, values, 0);
    FieldAt(text, CHECKPOINT_KEYS, values, 1);
    FieldAt(text, CHECKPOINT_KEYS, values, 2);
    FieldAt(text, CHECKPOINT_KEYS, values, 3);
    FieldAt(text, CHECKPOINT_KEYS, values, 4);
  }

  lemma RowFields(problem: string, seq_: nat, payloadSha256: string, e: Envelope)
    ensures var text := RowText(problem, seq_, payloadSha256, e);
            && HasKeys(text, ["chain_version", "created_at", "actor_fellow_id", "actor_session_id", "actor_sponsor_id", "event_id",
                              "harness", "model_string_self_declared", "object_id", "object_kind", "object_version",
                              "payload_sha256", "problem_id", "seq", "type", "writer_credential_id"])
            && SaysNat(text, "chain_version", 2) && SaysNat(text, "seq", seq_) && SaysNat(text, "object_version", e.objectVersion)
            && SaysText(text, "problem_id", problem) && SaysText(text, "payload_sha256", payloadSha256)
            && SaysText(text, "event_id", e.eventId) && SaysText(text, "type", e.kind)
            && SaysText(text, "object_kind", e.objectKind) && SaysText(text, "object_id", e.objectId)
            && SaysText(text, "created_at", e.createdAt)
            && SaysMaybe(text, "actor_fellow_id", e.actorFellowId) && SaysMaybe(text, "actor_sponsor_id", e.actorSponsorId)
            && SaysMaybe(text, "actor_session_id", e.actorSessionId)
            && SaysMaybe(text, "model_string_self_declared", e.modelString) && SaysMaybe(text, "harness", e.harness)
            && SaysMaybe(text, "writer_credential_id", e.writerCredentialId)
  {
    var text, values := RowText(problem, seq_, payloadSha256, e), RowValues(problem, seq_, payloadSha256, e);
    RowKeysDistinct();
    RowValuesPlain(problem, seq_, payloadSha256, e);
    hide FieldOf, RecordText, NatJson, NumberText.Denotes, Distinct, Plain, HasKeys;
    NormalNat(2);
    NormalNat(seq_);
    NormalNat(e.objectVersion);
    RecordField(ROW_KEYS, values);
    RowFieldsFrom(text, values);
  }

  /** The sixteen places of a row, one by one. */
  lemma RowFieldsFrom(text: string, values: seq<Json>)
    requires |values| == 16 && forall j :: 0 <= j < 16 ==> FieldOf(text, ROW_KEYS[j]) == Some(Normal(values[j]))
    ensures FieldOf(text, "chain_version") == Some(Normal(values[0])) && FieldOf(text, "created_at") == Some(Normal(values[1]))
    ensures FieldOf(text, "actor_fellow_id") == Some(Normal(values[2])) && FieldOf(text, "actor_session_id") == Some(Normal(values[3]))
    ensures FieldOf(text, "actor_sponsor_id") == Some(Normal(values[4])) && FieldOf(text, "event_id") == Some(Normal(values[5]))
    ensures FieldOf(text, "harness") == Some(Normal(values[6]))
    ensures FieldOf(text, "model_string_self_declared") == Some(Normal(values[7]))
    ensures FieldOf(text, "object_id") == Some(Normal(values[8])) && FieldOf(text, "object_kind") == Some(Normal(values[9]))
    ensures FieldOf(text, "object_version") == Some(Normal(values[10])) && FieldOf(text, "payload_sha256") == Some(Normal(values[11]))
    ensures FieldOf(text, "problem_id") == Some(Normal(values[12])) && FieldOf(text, "seq") == Some(Normal(values[13]))
    ensures FieldOf(text, "type") == Some(Normal(values[14])) && FieldOf(text, "writer_credential_id") == Some(Normal(values[15]))
  {
    hide FieldOf, Normal;
    FieldPlace(text, values, 0);
    FieldPlace(text, values, 1);
    FieldPlace(text, values, 2);
    FieldPlace(text, values, 3);
    FieldPlace(text, values, 4);
    FieldPlace(text, values, 5);
    FieldPlace(text, values, 6);
    FieldPlace(text, values, 7);
    FieldPlace(text, values, 8);
    FieldPlace(text, values, 9);
    FieldPlace(text, values, 10);
    FieldPlace(text, values, 11);
    FieldPlace(text, values, 12);
    FieldPlace(text, values, 13);
    FieldPlace(text, values, 14);
    FieldPlace(text, values, 15);
  }

  lemma FieldPlace(text: string, values: seq<Json>, i: nat)
    requires i < |values| == 16 && forall j :: 0 <= j < 16 ==> FieldOf(text, ROW_KEYS[j]) == Some(Normal(values[j]))
    ensures FieldOf(text, ROW_KEYS[i]) == Some(Normal(values[i]))
  {
    hide FieldOf, Normal;
  }
}
