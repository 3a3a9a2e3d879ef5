/**
 The identity gate of tools/bigcherry/e2e_smoke_campaign.py: a work directory is bound to one
 campaign identity by its status document before any stage may resume.
 */
module ResumeGate {
  import opened IdentityTree
  import opened Wrappers

  const STATUS_SCHEMA_VERSION := 2

  datatype Artifact =
    | Record | InventoryJson | InventorySqlite | TuneDb | Measurements | Journal | DispatchSqlite
    | Promoted | EvidenceInput | DispatchCache | Coverage | Bench | Report | Activation

  /** A stage file: its size, and the identity it was produced under (known to no program). */
  datatype Content = Content(size: nat, producer: Tree)

  /** `status.json`: absent, unreadable, or a document with possibly missing fields. */
  datatype Status =
    | Missing
    | Unreadable
    | Document(schema: Option<Tree>, identity: Option<Tree>, digest: Option<string>, history: History)

  /** The `history` field of a status document. */
  datatype History = NoHistory | NotAList | Entries(entries: seq<string>)

  datatype Directory = Directory(status: Status, artifacts: map<Artifact, Content>)

  datatype CampaignError =
    | Unattributed(found: set<Artifact>)
    | Untrusted
    | LegacySchema
    | NoIdentity
    | NoDigest
    | DoesNotRecompute
    | Mismatch(differences: seq<Difference>)
    | InvalidHistory
    | StageFailed

  /** `_stable_json_sha256`. */
  type Digest = Tree -> string

  /** The digest tells apart the documents that Python does not; that is all of its injectivity that is used. */
  ghost predicate Separates(digest: Digest) {
    forall a, b :: digest(a) == digest(b) && PyEqual(a, b) ==> a == b
  }

  predicate CurrentSchema(schema: Option<Tree>) {
    schema.Some? && PyEqual(schema.value, Number(STATUS_SCHEMA_VERSION))
  }

  function Bound(id: Tree, digest: Digest, history: seq<string>): Status {
    Document(Some(Number(STATUS_SCHEMA_VERSION)), Some(id), Some(digest(id)), Entries(history))
  }

  /** A status document the gate trusts, and the identity it binds. */
  predicate Trusted(s: Status, digest: Digest) {
    && s.Document? && CurrentSchema(s.schema)
    && s.identity.Some? && s.identity.value.Dict? && s.digest == Some(digest(s.identity.value))
  }

  /** `ensure_campaign_identity`. */
  function Ensure(d: Directory, id: Tree, digest: Digest): Result<Directory, CampaignError> {
    match d.status
    case Missing =>
      if d.artifacts != map[] then Err(Unattributed(d.artifacts.Keys))
      else Ok(d.(status := Bound(id, digest, [])))
    case Unreadable => Err(Untrusted)
    case Document(schema, identity, recorded, _) =>
      if !CurrentSchema(schema) then Err(LegacySchema)
      else if identity.None? || !identity.value.Dict? then Err(NoIdentity)
      else if recorded.None? then Err(NoDigest)
      else if digest(identity.value) != recorded.value then Err(DoesNotRecompute)
      else if recorded.value != digest(id) || !PyEqual(identity.value, id) then
        Err(Mismatch(Differences(identity.value, id)))
      else Ok(d)
  }

  /** `write_status`: every status mutation passes the gate first. */
  function WriteStatus(d: Directory, id: Tree, digest: Digest, entry: string): Result<Directory, CampaignError> {
    var gate := Ensure(d, id, digest);
    if gate.Err? then gate
    else if gate.value.status.history.NotAList? then Err(InvalidHistory)
    else Ok(gate.value.(status := gate.value.status.(history := Appended(gate.value.status.history, entry))))
  }

  /** `setdefault("history", [])`, and the new entry. */
  function Appended(h: History, entry: string): History
    requires !h.NotAList?
  {
    if h.NoHistory? then Entries([entry]) else Entries(h.entries + [entry])
  }

  /** Every artifact present was produced under `id`. */
  ghost predicate ProducedUnder(artifacts: map<Artifact, Content>, id: Tree) {
    forall a :: a in artifacts ==> artifacts[a].producer == id
  }

  /** While the status binds an identity, every stage artifact was produced under it. */
  ghost predicate Attributed(d: Directory, digest: Digest) {
    Trusted(d.status, digest) ==> ProducedUnder(d.artifacts, d.status.identity.value)
  }

  /** The gate opens exactly for an empty unbound directory and for one bound to this identity. */
  lemma {:induction false} EnsureOpensIff(d: Directory, id: Tree, digest: Digest)
    requires id.Dict? && Separates(digest)
    ensures Ensure(d, id, digest).Ok? <==>
      || (d.status == Missing && d.artifacts == map[])
      || (Trusted(d.status, digest) && d.status.identity == Some(id))
    ensures Ensure(d, id, digest).Ok? ==>
      Trusted(Ensure(d, id, digest).value.status, digest) && Ensure(d, id, digest).value.status.identity == Some(id)
  {
    PyEqualReflexive(id);
    PyEqualReflexive(Number(STATUS_SCHEMA_VERSION));
  }

  /** Behind an open gate everything belongs to this identity. */
  lemma {:induction false} EnsureAttributes(d: Directory, id: Tree, digest: Digest)
    requires id.Dict? && Separates(digest) && Attributed(d, digest) && Ensure(d, id, digest).Ok?
    ensures Attributed(Ensure(d, id, digest).value, digest)
    ensures ProducedUnder(Ensure(d, id, digest).value.artifacts, id)
    ensures Ensure(d, id, digest).value.artifacts == d.artifacts
  {
  }

  /**
   A trusted status of another identity is refused, every difference named is true of the two
   documents, and there is one to name exactly when Python tells the documents apart.
   */
  lemma {:induction false} MismatchIsExplained(d: Directory, id: Tree, digest: Digest)
    requires Separates(digest) && Trusted(d.status, digest) && d.status.identity.value != id
    ensures Ensure(d, id, digest).Err? && Ensure(d, id, digest).error.Mismatch?
    ensures var ds := Ensure(d, id, digest).error.differences;
      && (ds != [] <==> !PyEqual(d.status.identity.value, id))
      && forall x :: x in ds ==> TrueOf(d.status.identity.value, id, x)
  {
    var recorded := d.status.identity.value;
    NoDifferencesIffEqual(recorded, id);
    forall x | x in Differences(recorded, id) ensures TrueOf(recorded, id, x) { DifferencesSound(recorded, id, x); }
  }

  /** A temperature recorded as `0.0` and expected as `0`: refused, with nothing to name. */
  lemma {:induction false} UnexplainedMismatch(digest: Digest, files: map<Artifact, Content>)
    requires Separates(digest)
    ensures var recorded, id := Dict(map["temperature" := Float(0.0)]), Dict(map["temperature" := Number(0)]);
      Ensure(Directory(Bound(recorded, digest, []), files), id, digest) == Err(Mismatch([]))
  {
    var recorded, id := Dict(map["temperature" := Float(0.0)]), Dict(map["temperature" := Number(0)]);
    assert recorded.fields["temperature"] != id.fields["temperature"];
    assert PyEqual(recorded, id);
    PyEqualReflexive(Number(STATUS_SCHEMA_VERSION));
    MismatchIsExplained(Directory(Bound(recorded, digest, []), files), id, digest);
  }

  /** A refused run's attempt to record its failure is refused as well. */
  lemma {:induction false} RefusedTwice(d: Directory, id: Tree, digest: Digest, entry: string)
    requires Ensure(d, id, digest).Err?
    ensures WriteStatus(d, id, digest, entry).Err?
  {
  }

  ghost function EntriesOf(s: Status): seq<string> {
    if s.Document? && s.history.Entries? then s.history.entries else []
  }

  /** A status write adds its entry behind the ones that were there and changes no artifact; nothing else writes. */
  lemma {:induction false} StatusGrows(d: Directory, id: Tree, digest: Digest, entry: string)
    ensures WriteStatus(d, id, digest, entry).Ok? <==>
      Ensure(d, id, digest).Ok? && !(d.status.Document? && d.status.history.NotAList?)
    ensures WriteStatus(d, id, digest, entry).Ok? ==>
      var after := WriteStatus(d, id, digest, entry).value;
      && after.artifacts == d.artifacts && after.status.Document?
      && after.status.history == Entries(EntriesOf(d.status) + [entry])
      && (d.status.Document? ==> after.status == d.status.(history := after.status.history))
      && (d.status.Missing? ==> after.status == Bound(id, digest, [entry]))
  {
  }

  /** The work directory as the program updates it; who produced a file is not on disk. */
  class WorkDirectory {
    var status: Status
    ghost var artifacts: map<Artifact, Content>

    ghost function Value(): Directory
      reads this
    {
      Directory(status, artifacts)
    }

    constructor (s: Status, ghost files: map<Artifact, Content>)
      ensures Value() == Directory(s, files)
    {
      status, artifacts := s, files;
    }

    /** `ensure_campaign_identity`; `present` is what `_known_stage_artifacts` finds. */
    method EnsureCampaignIdentity(id: Tree, digest: Digest, present: set<Artifact>) returns (r: Option<CampaignError>)
      requires present == artifacts.Keys
      modifies this`status
      ensures r.None? ==> old(Ensure(Value(), id, digest)) == Ok(Value())
      ensures r.Some? ==> old(Ensure(Value(), id, digest)) == Err(r.value) && Value() == old(Value())
    {
      match status {
        case Missing =>
          if present != {} {
            return Some(Unattributed(present));
          }
          assert artifacts == map[];
          status := Bound(id, digest, []);
        case Unreadable =>
          return Some(Untrusted);
        case Document(schema, identity, recorded, _) =>
          if !CurrentSchema(schema) {
            return Some(LegacySchema);
          }
          if identity.None? || !identity.value.Dict? {
            return Some(NoIdentity);
          }
          if recorded.None? {
            return Some(NoDigest);
          }
          if digest(identity.value) != recorded.value {
            return Some(DoesNotRecompute);
          }
          if recorded.value != digest(id) || !PyEqual(identity.value, id) {
            return Some(Mismatch(Differences(identity.value, id)));
          }
      }
      return None;
    }

    /** `write_status`. */
    method AppendStatus(id: Tree, digest: Digest, present: set<Artifact>, entry: string) returns (r: Option<CampaignError>)
      requires present == artifacts.Keys
      modifies this`status
      ensures r.None? ==> old(WriteStatus(Value(), id, digest, entry)) == Ok(Value())
      ensures r.Some? ==> old(WriteStatus(Value(), id, digest, entry)) == Err(r.value) && Value() == old(Value())
    {
      r := EnsureCampaignIdentity(id, digest, present);
      if r.Some? {
        return;
      }
      if status.history.NotAList? {
        return Some(InvalidHistory);
      }
      status := status.(history := Appended(status.history, entry));
    }
  }
}
