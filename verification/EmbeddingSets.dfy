/**
 Embedding sets: the registry of a workspace's embedding spaces, the trigger that keeps every vector in
 the space of its set, and the repository that writes the registry.
 */
module EmbeddingSets {
  import opened Basics

  type SetId = string
  type ChunkId = string
  type Vector = seq<real>

  datatype Status = Building | Ready | Active | Retired | Failed

  datatype EmbeddingSet = EmbeddingSet(
    tenant: string,
    workspace: string,
    provider: string,
    model: string,
    dimensions: nat,
    status: Status,
    chunkCount: nat,
    vectorCount: nat,
    indexName: Option<string>,
    readyAt: Option<int>,
    activatedAt: Option<int>,
    retiredAt: Option<int>,
    orphaned: bool)

  type Sets = map<SetId, EmbeddingSet>

  /** A vector's primary key: one chunk may have a vector in several sets. */
  datatype Key = Key(setId: SetId, chunkId: ChunkId)

  datatype VectorRow = VectorRow(namespace: string, embedding: Vector, dim: nat, model: string)

  type Vectors = map<Key, VectorRow>

  datatype Workspace = Workspace(tenant: string, activeSet: Option<SetId>)

  type Workspaces = map<string, Workspace>

  /** `<provider>:<model>`. */
  function Label(provider: string, model: string): string {
    provider + ":" + model
  }

  /** The trigger's test: the set exists and is the space the row says it comes from. */
  predicate Admits(sets: Sets, key: Key, row: VectorRow) {
    && key.setId in sets
    && row.model == Label(sets[key.setId].provider, sets[key.setId].model)
    && row.dim == sets[key.setId].dimensions
  }

  /** Every vector matches its set's model and width. */
  ghost predicate Coherent(vectors: Vectors, sets: Sets) {
    forall key :: key in vectors ==> Admits(sets, key, vectors[key])
  }

  /** A set in one of the three stamped states carries the matching timestamp. */
  predicate Stamped(s: EmbeddingSet) {
    && (s.status.Ready? ==> s.readyAt.Some?)
    && (s.status.Active? ==> s.activatedAt.Some?)
    && (s.status.Retired? ==> s.retiredAt.Some?)
  }

  /** The columns' limits: CHECK (dimensions BETWEEN 64 AND 4096) and the VARCHAR widths. */
  predicate Insertable(s: EmbeddingSet) {
    && 64 <= s.dimensions <= 4096
    && |s.tenant| <= 64 && |s.workspace| <= 64 && |s.provider| <= 64 && |s.model| <= 256
  }

  /** What `set_status` may be given besides the status; None leaves the column alone. */
  datatype Patch = Patch(vectorCount: Option<nat>, chunkCount: Option<nat>, indexName: Option<string>)

  function Moved(s: EmbeddingSet, status: Status, patch: Patch, now: int): EmbeddingSet {
    s.(status := status,
       readyAt := if status.Ready? then Some(now) else s.readyAt,
       activatedAt := if status.Active? then Some(now) else s.activatedAt,
       retiredAt := if status.Retired? then Some(now) else s.retiredAt,
       vectorCount := if patch.vectorCount.Some? then patch.vectorCount.value else s.vectorCount,
       chunkCount := if patch.chunkCount.Some? then patch.chunkCount.value else s.chunkCount,
       indexName := if patch.indexName.Some? then patch.indexName else s.indexName)
  }

  predicate InScope(s: EmbeddingSet, tenant: string, workspace: string) {
    s.tenant == tenant && s.workspace == workspace
  }

  class EmbeddingSetRepository {
    var sets: Sets
    var vectors: Vectors
    var workspaces: Workspaces
    var now: int

    ghost function AsState(): State
      reads this
    {
      State(sets, vectors, workspaces, now)
    }

    /** INSERT: refused on a taken id or a column limit. */
    method Insert(id: SetId, row: EmbeddingSet) returns (ok: bool)
      modifies this`sets
      ensures ok <==>
                && id !in old(sets) && 64 <= row.dimensions <= 4096
                && |row.tenant| <= 64 && |row.workspace| <= 64 && |row.provider| <= 64 && |row.model| <= 256
      ensures sets == if ok then old(sets)[id := row] else old(sets)
      ensures AsState() == Apply(old(AsState()), InsertSet(id, row))
    {
      ok := id !in sets && Insertable(row);
      if ok { sets := sets[id := row]; }
    }

    method SetStatus(tenant: string, workspace: string, id: SetId, status: Status, patch: Patch)
      modifies this`sets
      ensures AsState() == Apply(old(AsState()), MoveSet(tenant, workspace, id, status, patch))
      ensures sets.Keys == old(sets).Keys
      ensures forall other :: other in sets && sets[other] != old(sets)[other] ==>
                other == id && old(sets)[id].tenant == tenant && old(sets)[id].workspace == workspace
      ensures id in sets && old(sets)[id].tenant == tenant && old(sets)[id].workspace == workspace ==>
                && sets[id].status == status
                && sets[id].readyAt == (if status == Ready then Some(now) else old(sets)[id].readyAt)
                && sets[id].activatedAt == (if status == Active then Some(now) else old(sets)[id].activatedAt)
                && sets[id].retiredAt == (if status == Retired then Some(now) else old(sets)[id].retiredAt)
                && (patch.vectorCount == Some(sets[id].vectorCount)
                    || (patch.vectorCount == None && sets[id].vectorCount == old(sets)[id].vectorCount))
                && (patch.chunkCount == Some(sets[id].chunkCount)
                    || (patch.chunkCount == None && sets[id].chunkCount == old(sets)[id].chunkCount))
                && sets[id].indexName == (if patch.indexName == None then old(sets)[id].indexName else patch.indexName)
                && sets[id].tenant == tenant && sets[id].workspace == workspace && sets[id].orphaned == old(sets)[id].orphaned
                && SameSpace(old(sets), sets, id)
    {
      if id in sets && InScope(sets[id], tenant, workspace) {
        sets := sets[id := Moved(sets[id], status, patch, now)];
      }
    }

    method Delete(tenant: string, workspace: string, id: SetId)
      modifies this`sets
      ensures AsState() == Apply(old(AsState()), DeleteSet(tenant, workspace, id))
      ensures forall other :: other in old(sets) ==>
                (other !in sets <==> other == id && old(sets)[id].tenant == tenant && old(sets)[id].workspace == workspace)
      ensures forall other :: other in sets ==> other in old(sets) && sets[other] == old(sets)[other]
    {
      if id in sets && InScope(sets[id], tenant, workspace) {
        sets := sets - {id};
      }
    }

    method PointWorkspaceAt(tenant: string, workspace: string, id: Option<SetId>)
      modifies this`workspaces
      ensures AsState() == Apply(old(AsState()), Point(tenant, workspace, id))
      ensures workspaces.Keys == old(workspaces).Keys
      ensures forall w :: w in workspaces ==> workspaces[w].tenant == old(workspaces)[w].tenant
      ensures forall w :: w in workspaces ==>
                workspaces[w].activeSet
                == if w == workspace && workspaces[w].tenant == tenant then id else old(workspaces)[w].activeSet
    {
      if workspace in workspaces && workspaces[workspace].tenant == tenant {
        workspaces := workspaces[workspace := Workspace(tenant, id)];
      }
    }

    /** INSERT ... ON CONFLICT (set_id, id) DO UPDATE, behind the trigger. */
    method Upsert(key: Key, row: VectorRow) returns (ok: bool)
      modifies this`vectors
      ensures ok <==>
                && key.setId in sets && row.dim == sets[key.setId].dimensions
                && row.model == sets[key.setId].provider + ":" + sets[key.setId].model
      ensures vectors == if ok then old(vectors)[key := row] else old(vectors)
      ensures AsState() == Apply(old(AsState()), UpsertVector(key, row))
    {
      ok := Admits(sets, key, row);
      if ok { vectors := vectors[key := row]; }
    }
  }

  // ---------------------------------------------------------------------------------------------
  // Every write keeps the vectors coherent
  // ---------------------------------------------------------------------------------------------

  datatype State = State(sets: Sets, vectors: Vectors, workspaces: Workspaces, now: int)

  datatype Write =
    | Tick(seconds: nat)
    | InsertSet(id: SetId, row: EmbeddingSet)
    | MoveSet(tenant: string, workspace: string, id: SetId, status: Status, patch: Patch)
    | DeleteSet(tenant: string, workspace: string, id: SetId)
    | Point(tenant: string, workspace: string, target: Option<SetId>)
    | UpsertVector(key: Key, vector: VectorRow)
    | DropVectors(keys: set<Key>)

  /** What each statement does; the methods above are proved against it. */
  function Apply(s: State, w: Write): State {
    match w
    case Tick(seconds) => s.(now := s.now + seconds)
    case InsertSet(id, row) => if id !in s.sets && Insertable(row) then s.(sets := s.sets[id := row]) else s
    case MoveSet(tenant, workspace, id, status, patch) =>
      if id in s.sets && InScope(s.sets[id], tenant, workspace)
      then s.(sets := s.sets[id := Moved(s.sets[id], status, patch, s.now)]) else s
    case DeleteSet(tenant, workspace, id) =>
      if id in s.sets && InScope(s.sets[id], tenant, workspace) then s.(sets := s.sets - {id}) else s
    case Point(tenant, workspace, target) =>
      if workspace in s.workspaces && s.workspaces[workspace].tenant == tenant
      then s.(workspaces := s.workspaces[workspace := Workspace(tenant, target)]) else s
    case UpsertVector(key, row) => if Admits(s.sets, key, row) then s.(vectors := s.vectors[key := row]) else s
    case DropVectors(keys) => s.(vectors := s.vectors - keys)
  }

  /** A delete that takes effect on a set some vector still names. */
  ghost predicate Strands(s: State, w: Write) {
    && w.DeleteSet?
    && w.id in s.sets && InScope(s.sets[w.id], w.tenant, w.workspace)
    && exists key :: key in s.vectors && key.setId == w.id
  }

  /** A write keeps coherence exactly when it does not delete a set that still has vectors. */
  lemma WriteKeepsCoherentIff(s: State, w: Write)
    requires Coherent(s.vectors, s.sets)
    ensures Coherent(Apply(s, w).vectors, Apply(s, w).sets) <==> !Strands(s, w)
  {
    var s' := Apply(s, w);
    if Strands(s, w) {
      var key :| key in s.vectors && key.setId == w.id;
      assert !Admits(s'.sets, key, s'.vectors[key]);
    } else {
      forall key | key in s'.vectors ensures Admits(s'.sets, key, s'.vectors[key]) {
        assert (w.UpsertVector? && w.key == key) || Admits(s.sets, key, s.vectors[key]);
      }
    }
  }

  function Run(s: State, writes: seq<Write>): State
    decreases |writes|
  {
    if |writes| == 0 then s else Run(Apply(s, writes[0]), writes[1..])
  }

  ghost predicate NeverStrands(s: State, writes: seq<Write>)
    decreases |writes|
  {
    |writes| == 0 || (!Strands(s, writes[0]) && NeverStrands(Apply(s, writes[0]), writes[1..]))
  }

  lemma {:induction false} RunKeepsCoherent(s: State, writes: seq<Write>)
    requires Coherent(s.vectors, s.sets) && NeverStrands(s, writes)
    ensures Coherent(Run(s, writes).vectors, Run(s, writes).sets)
    decreases |writes|
  {
    if |writes| > 0 {
      WriteKeepsCoherentIff(s, writes[0]);
      RunKeepsCoherent(Apply(s, writes[0]), writes[1..]);
    }
  }

  ghost predicate AllStamped(sets: Sets) {
    forall id :: id in sets ==> Stamped(sets[id])
  }

  /** The set is still the same space, if it is still there. */
  predicate SameSpace(before: Sets, after: Sets, id: SetId) {
    id in after ==>
      && id in before
      && after[id].provider == before[id].provider
      && after[id].model == before[id].model
      && after[id].dimensions == before[id].dimensions
  }

  lemma WriteKeepsSpace(s: State, w: Write, id: SetId)
    requires id in s.sets
    ensures SameSpace(s.sets, Apply(s, w).sets, id)
  {
  }

  /** The set is there after every write. */
  ghost predicate Survives(s: State, writes: seq<Write>, id: SetId)
    decreases |writes|
  {
    id in s.sets && (|writes| == 0 || Survives(Apply(s, writes[0]), writes[1..], id))
  }

  /** In any run a set that is not deleted stays the space it is. */
  lemma {:induction false} RunKeepsSpaces(s: State, writes: seq<Write>, id: SetId)
    requires Survives(s, writes, id)
    ensures id in Run(s, writes).sets && SameSpace(s.sets, Run(s, writes).sets, id)
    decreases |writes|
  {
    if |writes| > 0 {
      WriteKeepsSpace(s, writes[0], id);
      RunKeepsSpaces(Apply(s, writes[0]), writes[1..], id);
    }
  }

  /** A set is inserted whole, so it can come with a status and without its timestamp. */
  predicate InsertsUnstamped(s: State, w: Write) {
    w.InsertSet? && w.id !in s.sets && Insertable(w.row) && !Stamped(w.row)
  }

  /** No other write leaves a set ready, active or retired without the timestamp that says since when. */
  lemma WriteKeepsStampsIff(s: State, w: Write)
    requires AllStamped(s.sets)
    ensures AllStamped(Apply(s, w).sets) <==> !InsertsUnstamped(s, w)
  {
    var s' := Apply(s, w);
    if InsertsUnstamped(s, w) {
      assert !Stamped(s'.sets[w.id]);
    } else {
      forall other | other in s'.sets ensures Stamped(s'.sets[other]) {
        assert other in s.sets ==> Stamped(s.sets[other]);
      }
    }
  }

  ghost predicate NeverInsertsUnstamped(s: State, writes: seq<Write>)
    decreases |writes|
  {
    |writes| == 0 || (!InsertsUnstamped(s, writes[0]) && NeverInsertsUnstamped(Apply(s, writes[0]), writes[1..]))
  }

  lemma {:induction false} RunKeepsStamps(s: State, writes: seq<Write>)
    requires AllStamped(s.sets) && NeverInsertsUnstamped(s, writes)
    ensures AllStamped(Run(s, writes).sets)
    ensures var sets := Run(s, writes).sets;
            forall id :: id in sets ==>
              && (sets[id].status == Ready ==> sets[id].readyAt != None)
              && (sets[id].status == Active ==> sets[id].activatedAt != None)
              && (sets[id].status == Retired ==> sets[id].retiredAt != None)
    decreases |writes|
  {
    if |writes| > 0 {
      WriteKeepsStampsIff(s, writes[0]);
      RunKeepsStamps(Apply(s, writes[0]), writes[1..]);
    }
  }
}
