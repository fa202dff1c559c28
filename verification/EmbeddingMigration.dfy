/**
 Migration 0017: the flat vector table is folded into one embedding set per namespace, re-keyed and put
 behind the coherence trigger; the downgrade undoes it.

 A migration runs in one transaction, so a refusal leaves the database as it was.
 */
module EmbeddingMigration {
  import opened Basics
  import opened EmbeddingSets
  import Names
  import Fields

  /** A row of the table while it is keyed by chunk id; the last three columns are new and start NULL. */
  datatype FlatRow = FlatRow(namespace: string, embedding: Vector, setId: Option<SetId>, dim: Option<nat>, model: Option<string>)

  type Flat = map<ChunkId, FlatRow>

  predicate Bare(flat: Flat) {
    forall id :: id in flat ==> flat[id] == FlatRow(flat[id].namespace, flat[id].embedding, None, None, None)
  }

  function Namespaces(flat: Flat): set<string> {
    set id | id in flat :: flat[id].namespace
  }

  function Members(flat: Flat, namespace: string): set<ChunkId> {
    set id | id in flat && flat[id].namespace == namespace
  }

  predicate OneWidth(flat: Flat, namespace: string) {
    forall a, b :: a in Members(flat, namespace) && b in Members(flat, namespace) ==>
      |flat[a].embedding| == |flat[b].embedding|
  }

  /** `FLYCANON_EMBEDDING_MODEL`, cut at its first colon. */
  datatype Embedder = Embedder(provider: string, model: string)

  function ParseEmbedder(setting: string): Embedder {
    var i := Fields.FirstOf(setting, ':');
    Embedder(if i == 0 then "unknown" else setting[..i], if i + 1 >= |setting| then setting else setting[i + 1..])
  }

  /** The setting is cut at its first colon; what is missing on either side is filled in. */
  lemma EmbedderOf(provider: string, model: string)
    requires Fields.Free(provider, ':')
    ensures ParseEmbedder(provider + ":" + model)
            == Embedder(if provider == "" then "unknown" else provider, if model == "" then provider + ":" else model)
    ensures ParseEmbedder(provider) == Embedder(if provider == "" then "unknown" else provider, provider)
  {
    Fields.FirstOfIs(provider, model, ':');
    assert [':'] == ":";
    var setting := provider + ":" + model;
    assert setting[..|provider|] == provider && setting[|provider| + 1..] == model;
    if model == "" { assert setting == provider + ":"; }
    assert provider[..|provider|] == provider;
  }

  /** The label of the adopted rows is the setting itself exactly if it has the form provider:model. */
  lemma LabelIsSettingIff(setting: string)
    ensures var e := ParseEmbedder(setting);
            Label(e.provider, e.model) == setting <==> 0 < Fields.FirstOf(setting, ':') < |setting| - 1
  {
    if 0 < Fields.FirstOf(setting, ':') < |setting| - 1 {
      ProperLabel(setting);
    } else {
      ImproperLabel(setting);
    }
  }

  lemma ProperLabel(setting: string)
    requires 0 < Fields.FirstOf(setting, ':') < |setting| - 1
    ensures Label(ParseEmbedder(setting).provider, ParseEmbedder(setting).model) == setting
  {
    var i := Fields.FirstOf(setting, ':');
    CutAtColon(setting, i);
  }

  lemma CutAtColon(s: string, i: nat)
    requires i < |s| && s[i] == ':'
    ensures Label(s[..i], s[i + 1..]) == s
  {
  }

  lemma ImproperLabel(setting: string)
    requires !(0 < Fields.FirstOf(setting, ':') < |setting| - 1)
    ensures |Label(ParseEmbedder(setting).provider, ParseEmbedder(setting).model)| > |setting|
  {
    LabelLength(ParseEmbedder(setting).provider, ParseEmbedder(setting).model);
  }

  lemma LabelLength(provider: string, model: string)
    ensures |Label(provider, model)| == |provider| + 1 + |model|
  {
  }

  /** The pointer UPDATE of the adoption finds a row. */
  predicate HasWorkspace(workspaces: Workspaces, namespace: string) {
    var (tenant, workspace) := Names.Decode(namespace);
    workspace in workspaces && workspaces[workspace].tenant == tenant
  }

  /** The set a namespace is folded into. */
  function AdoptedSet(id: SetId, namespace: string, width: nat, rows: nat, embedder: Embedder, orphaned: bool, now: int): EmbeddingSet {
    var (tenant, workspace) := Names.Decode(namespace);
    EmbeddingSet(tenant, workspace, embedder.provider, embedder.model, width, Active, rows, rows,
                 Some(Names.IndexNameFor(id)), None, Some(now), None, orphaned)
  }

  /** The registry's column limits, for a set of this width. */
  predicate Fits(namespace: string, width: nat, embedder: Embedder) {
    && 64 <= width <= 4096
    && |Names.Decode(namespace).0| <= 64 && |Names.Decode(namespace).1| <= 64
    && |embedder.provider| <= 64 && |embedder.model| <= 256
  }

  /** Adoption refuses exactly the sets that the registry refuses. */
  lemma FitsIffInsertable(id: SetId, namespace: string, width: nat, rows: nat, embedder: Embedder, orphaned: bool, now: int)
    ensures Fits(namespace, width, embedder) <==> Insertable(AdoptedSet(id, namespace, width, rows, embedder, orphaned, now))
  {
  }

  /** One namespace can be folded: one width, and the registry accepts the set. */
  predicate Adoptable(flat: Flat, namespace: string, embedder: Embedder) {
    && OneWidth(flat, namespace)
    && forall id :: id in Members(flat, namespace) ==> Fits(namespace, |flat[id].embedding|, embedder)
  }

  predicate AllAdoptable(flat: Flat, embedder: Embedder) {
    forall ns :: ns in Namespaces(flat) ==> Adoptable(flat, ns, embedder)
  }

  /** Every vector of the namespace has this width. */
  predicate HasWidth(flat: Flat, namespace: string, width: nat) {
    forall c :: c in flat && flat[c].namespace == namespace ==> |flat[c].embedding| == width
  }

  lemma AdoptableIffOneWidth(flat: Flat, ns: string, embedder: Embedder)
    requires ns in Namespaces(flat)
    ensures Adoptable(flat, ns, embedder)
            <==> && (exists width :: 64 <= width <= 4096 && HasWidth(flat, ns, width))
                 && |Names.Decode(ns).0| <= 64 && |Names.Decode(ns).1| <= 64
                 && |embedder.provider| <= 64 && |embedder.model| <= 256
  {
    var c :| c in flat && flat[c].namespace == ns;
    assert c in Members(flat, ns);
    if Adoptable(flat, ns, embedder) {
      assert HasWidth(flat, ns, |flat[c].embedding|);
    }
  }

  /** A canonical namespace whose parts fit their columns. */
  ghost predicate ProperNamespace(ns: string) {
    exists tenant, workspace ::
      && Fields.Free(tenant, '/') && Fields.Free(workspace, '/') && |tenant| <= 64 && |workspace| <= 64
      && ns == Names.Namespace(tenant, workspace)
  }

  /** Which tables the upgrade accepts, in numbers. */
  lemma AllAdoptableIff(flat: Flat, embedder: Embedder)
    requires |embedder.provider| <= 64 && |embedder.model| <= 256
    requires forall ns :: ns in Namespaces(flat) ==> ProperNamespace(ns)
    ensures AllAdoptable(flat, embedder)
            <==> forall ns :: ns in Namespaces(flat) ==> exists width :: 64 <= width <= 4096 && HasWidth(flat, ns, width)
  {
    forall ns | ns in Namespaces(flat)
      ensures Adoptable(flat, ns, embedder) <==> exists width :: 64 <= width <= 4096 && HasWidth(flat, ns, width)
    {
      var tenant, workspace :|
        && Fields.Free(tenant, '/') && Fields.Free(workspace, '/') && |tenant| <= 64 && |workspace| <= 64
        && ns == Names.Namespace(tenant, workspace);
      Names.DecodeOfNamespace(tenant, workspace);
      AdoptableIffOneWidth(flat, ns, embedder);
    }
  }

  /** The UPDATE of one namespace's rows. */
  function LabelNamespace(flat: Flat, ns: string, id: SetId, embedder: Embedder): Flat {
    map c | c in flat ::
      if flat[c].namespace == ns then LabelRow(flat[c], id, embedder) else flat[c]
  }

  function LabelRow(row: FlatRow, id: SetId, embedder: Embedder): FlatRow {
    row.(setId := Some(id), dim := Some(|row.embedding|), model := Some(Label(embedder.provider, embedder.model)))
  }

  /** The same for several namespaces, each with its set. */
  function LabelRows(flat: Flat, home: map<string, SetId>, embedder: Embedder): Flat {
    map c | c in flat ::
      if flat[c].namespace in home then LabelRow(flat[c], home[flat[c].namespace], embedder) else flat[c]
  }

  /** A set describes exactly the rows of its namespace. */
  ghost predicate Describes(s: EmbeddingSet, id: SetId, flat: Flat, ns: string, embedder: Embedder) {
    && (forall c :: c in Members(flat, ns) ==> |flat[c].embedding| == s.dimensions)
    && s.provider == embedder.provider && s.model == embedder.model
    && (s.tenant, s.workspace) == Names.Decode(ns)
    && s.status == Active && Stamped(s)
    && s.vectorCount == s.chunkCount == |Members(flat, ns)|
    && s.indexName == Some(Names.IndexNameFor(id))
  }

  /** The set of a namespace is new and describes it. */
  ghost predicate Founded(flat: Flat, home: map<string, SetId>, embedder: Embedder, before: Sets, after: Sets, ns: string)
    requires ns in home
  {
    home[ns] !in before && home[ns] in after && Describes(after[home[ns]], home[ns], flat, ns, embedder)
  }

  predicate Adopted(home: map<string, SetId>, id: SetId) {
    exists ns :: ns in home && home[ns] == id
  }

  /** Every namespace in `home` has its own new set, and no other set has changed. */
  ghost predicate Registered(flat: Flat, home: map<string, SetId>, embedder: Embedder, before: Sets, after: Sets) {
    && (forall ns :: ns in home ==> Founded(flat, home, embedder, before, after, ns))
    && Apart(home)
    && (forall id :: id in before ==> id in after && after[id] == before[id])
    && (forall id :: id in after ==> id in before || Adopted(home, id))
  }

  function PointAt(workspaces: Workspaces, ns: string, id: SetId): Workspaces {
    var (tenant, workspace) := Names.Decode(ns);
    if HasWorkspace(workspaces, ns) then workspaces[workspace := Workspace(tenant, Some(id))] else workspaces
  }

  lemma LabelStep(flat: Flat, home: map<string, SetId>, ns: string, id: SetId, embedder: Embedder)
    requires ns !in home
    ensures LabelNamespace(LabelRows(flat, home, embedder), ns, id, embedder) == LabelRows(flat, home[ns := id], embedder)
  {
  }

  lemma LabelsKeepRows(flat: Flat, home: map<string, SetId>, ns: string, embedder: Embedder)
    ensures Members(LabelRows(flat, home, embedder), ns) == Members(flat, ns)
    ensures Adoptable(LabelRows(flat, home, embedder), ns, embedder) <==> Adoptable(flat, ns, embedder)
  {
    assert Members(LabelRows(flat, home, embedder), ns) == Members(flat, ns);
  }

  lemma DescribesKept(s: EmbeddingSet, id: SetId, flat: Flat, home: map<string, SetId>, ns: string, embedder: Embedder)
    requires Describes(s, id, LabelRows(flat, home, embedder), ns, embedder)
    ensures Describes(s, id, flat, ns, embedder)
  {
    LabelsKeepRows(flat, home, ns, embedder);
  }

  lemma FoundedKept(flat: Flat, home: map<string, SetId>, embedder: Embedder, before: Sets, after: Sets,
                    ns: string, id: SetId, row: EmbeddingSet, n: string)
    requires n in home ==> Founded(flat, home, embedder, before, after, n)
    requires n == ns || n in home
    requires ns !in home && id !in after && id !in before && Describes(row, id, flat, ns, embedder)
    ensures Founded(flat, home[ns := id], embedder, before, after[id := row], n)
  {
  }

  /** No two namespaces share a home. */
  predicate Apart(home: map<string, SetId>) {
    forall a, b :: a in home && b in home && a != b ==> home[a] != home[b]
  }

  lemma ApartStep(home: map<string, SetId>, ns: string, id: SetId, after: Sets)
    requires Apart(home) && ns !in home && id !in after
    requires forall n :: n in home ==> home[n] in after
    ensures Apart(home[ns := id])
  {
  }

  lemma RegisterStep(flat: Flat, home: map<string, SetId>, embedder: Embedder, before: Sets, after: Sets,
                     ns: string, id: SetId, row: EmbeddingSet)
    requires Registered(flat, home, embedder, before, after) && ns !in home
    requires id !in after && Describes(row, id, flat, ns, embedder)
    ensures Registered(flat, home[ns := id], embedder, before, after[id := row])
  {
    var home', after' := home[ns := id], after[id := row];
    forall n | n in home' ensures Founded(flat, home', embedder, before, after', n) {
      FoundedKept(flat, home, embedder, before, after, ns, id, row, n);
    }
    forall n | n in home ensures home[n] in after {
      assert Founded(flat, home, embedder, before, after, n);
    }
    ApartStep(home, ns, id, after);
    AdoptedGrows(home, ns, id);
  }

  lemma AdoptedGrows(home: map<string, SetId>, ns: string, id: SetId)
    requires ns !in home
    ensures Adopted(home[ns := id], id)
    ensures forall x :: Adopted(home, x) ==> Adopted(home[ns := id], x)
  {
    var home' := home[ns := id];
    assert home'[ns] == id;
    forall x | Adopted(home, x) ensures Adopted(home', x) {
      var n :| n in home && home[n] == x;
      assert home'[n] == x;
    }
  }

  // ---------------------------------------------------------------------------------------------
  // The adoption loop
  // ---------------------------------------------------------------------------------------------

  /** The tables the adoption writes. */
  datatype Tables = Tables(flat: Flat, sets: Sets, workspaces: Workspaces)

  /** Namespaces in the order the GROUP BY returned them, each with the id minted for it. */
  type Plan = seq<(string, SetId)>

  /** The width of a namespace: that of any of its rows. */
  ghost function WidthOf(flat: Flat, ns: string): nat {
    if Members(flat, ns) == {} then 0 else var c :| c in Members(flat, ns); |flat[c].embedding|
  }

  /** INSERT the set, UPDATE the rows, UPDATE the pointer. */
  ghost function AdoptOne(t: Tables, ns: string, id: SetId, embedder: Embedder, now: int): Tables {
    var row := AdoptedSet(id, ns, WidthOf(t.flat, ns), |Members(t.flat, ns)|, embedder, !HasWorkspace(t.workspaces, ns), now);
    Tables(LabelNamespace(t.flat, ns, id, embedder), t.sets[id := row], PointAt(t.workspaces, ns, id))
  }

  ghost function AdoptAll(t: Tables, plan: Plan, embedder: Embedder, now: int): Tables {
    if |plan| == 0 then t
    else
      var (ns, id) := plan[|plan| - 1];
      AdoptOne(AdoptAll(t, plan[..|plan| - 1], embedder, now), ns, id, embedder, now)
  }

  /** Which set a plan gives to each namespace. */
  function Home(plan: Plan): map<string, SetId> {
    if |plan| == 0 then map[] else Home(plan[..|plan| - 1])[plan[|plan| - 1].0 := plan[|plan| - 1].1]
  }

  /** The set adopted last for a workspace, if any was. */
  function LastAdopted(plan: Plan, tenant: string, w: string): Option<SetId> {
    if |plan| == 0 then None
    else if Names.Decode(plan[|plan| - 1].0) == (tenant, w) then Some(plan[|plan| - 1].1)
    else LastAdopted(plan[..|plan| - 1], tenant, w)
  }

  /** A workspace points at the set adopted last for it, and is as before if none was. */
  ghost predicate Pointed(plan: Plan, before: Workspaces, after: Workspaces) {
    && after.Keys == before.Keys
    && forall w :: w in before ==>
         after[w] == match LastAdopted(plan, before[w].tenant, w)
                     case None => before[w]
                     case Some(id) => Workspace(before[w].tenant, Some(id))
  }

  lemma PointStep(plan: Plan, before: Workspaces, after: Workspaces)
    requires |plan| > 0 && Pointed(plan[..|plan| - 1], before, after)
    ensures Pointed(plan, before, PointAt(after, plan[|plan| - 1].0, plan[|plan| - 1].1))
  {
  }

  /** Each namespace once, with the ids in the order they are minted. */
  ghost predicate Planned(plan: Plan, mint: nat -> SetId) {
    |plan| == 0
    || (var init := plan[..|plan| - 1];
        var (ns, id) := plan[|plan| - 1];
        id == mint(|plan| - 1) && ns !in Home(init) && Planned(init, mint))
  }

  /** The same chunks, namespaces and embeddings. */
  ghost predicate SameRows(a: Flat, b: Flat) {
    a.Keys == b.Keys && forall c :: c in a ==> a[c].namespace == b[c].namespace && a[c].embedding == b[c].embedding
  }

  lemma SameRowsFacts(a: Flat, b: Flat, ns: string, embedder: Embedder)
    requires SameRows(a, b)
    ensures Members(a, ns) == Members(b, ns)
    ensures Adoptable(a, ns, embedder) <==> Adoptable(b, ns, embedder)
    ensures ns in Namespaces(b) ==> Members(a, ns) != {}
  {
    assert Members(a, ns) == Members(b, ns);
  }

  /** Between two turns of the loop: `plan` is done, `todo` is left. */
  ghost predicate Progress(t0: Tables, t: Tables, plan: Plan, mint: nat -> SetId, todo: set<string>, embedder: Embedder, now: int) {
    && t == AdoptAll(t0, plan, embedder, now) && SameRows(t.flat, t0.flat)
    && todo <= Namespaces(t0.flat) && Home(plan).Keys == Namespaces(t0.flat) - todo
    && Planned(plan, mint)
    && forall ns :: ns in Home(plan) ==> Adoptable(t0.flat, ns, embedder)
  }

  lemma SameRowsTransitive(a: Flat, b: Flat, c: Flat)
    requires SameRows(a, b) && SameRows(b, c)
    ensures SameRows(a, c)
  {
  }

  lemma PlanSnoc(plan: Plan, mint: nat -> SetId, ns: string)
    requires Planned(plan, mint) && ns !in Home(plan)
    ensures var longer := plan + [(ns, mint(|plan|))];
            && Planned(longer, mint) && Home(longer) == Home(plan)[ns := mint(|plan|)]
            && longer[..|longer| - 1] == plan
  {
    assert (plan + [(ns, mint(|plan|))])[..|plan|] == plan;
  }

  lemma ProgressStep(t0: Tables, t: Tables, plan: Plan, mint: nat -> SetId, todo: set<string>, ns: string,
                     embedder: Embedder, now: int)
    requires Progress(t0, t, plan, mint, todo, embedder, now)
    requires ns in todo && Adoptable(t.flat, ns, embedder)
    ensures Progress(t0, AdoptOne(t, ns, mint(|plan|), embedder, now), plan + [(ns, mint(|plan|))], mint, todo - {ns}, embedder, now)
  {
    PlanSnoc(plan, mint, ns);
    SameRowsFacts(t.flat, t0.flat, ns, embedder);
    SameRowsTransitive(AdoptOne(t, ns, mint(|plan|), embedder, now).flat, t.flat, t0.flat);
  }

  // ---------------------------------------------------------------------------------------------
  // Re-keying and back
  // ---------------------------------------------------------------------------------------------

  predicate NotNull(flat: Flat) {
    forall c :: c in flat ==> flat[c].setId.Some? && flat[c].dim.Some? && flat[c].model.Some?
  }

  function Rekey(flat: Flat): Vectors
    requires NotNull(flat)
  {
    map c | c in flat ::
      Key(flat[c].setId.value, c) := VectorRow(flat[c].namespace, flat[c].embedding, flat[c].dim.value, flat[c].model.value)
  }

  /** One declared width, every embedding of that width, and no chunk in two sets. */
  predicate Restorable(vectors: Vectors) {
    && (forall a, b :: a in vectors && b in vectors ==> vectors[a].dim == vectors[b].dim)
    && (forall a :: a in vectors ==> |vectors[a].embedding| == vectors[a].dim)
    && (forall a, b :: a in vectors && b in vectors && a.chunkId == b.chunkId ==> a == b)
  }

  function Restore(vectors: Vectors): Flat
    requires Restorable(vectors)
  {
    map key | key in vectors :: key.chunkId := FlatRow(vectors[key].namespace, vectors[key].embedding, None, None, None)
  }

  /** Where the vector of chunk `c` is filed. */
  function KeyOf(flat: Flat, home: map<string, SetId>, c: ChunkId): Key
    requires c in flat && flat[c].namespace in home
  {
    Key(home[flat[c].namespace], c)
  }

  /** The re-keyed form of a row: its own namespace and embedding, its measured width, the new label. */
  function Refile(row: FlatRow, embedder: Embedder): VectorRow {
    VectorRow(row.namespace, row.embedding, |row.embedding|, Label(embedder.provider, embedder.model))
  }

  /** Every row is filed once, under the set of its namespace, and nothing else is there. */
  ghost predicate Refiled(flat: Flat, home: map<string, SetId>, embedder: Embedder, vectors: Vectors) {
    && (forall c :: c in flat ==>
          flat[c].namespace in home && KeyOf(flat, home, c) in vectors
          && vectors[KeyOf(flat, home, c)] == Refile(flat[c], embedder))
    && (forall key :: key in vectors ==>
          key.chunkId in flat && flat[key.chunkId].namespace in home && key == KeyOf(flat, home, key.chunkId))
  }

  /** The database after a successful upgrade of `t`. */
  ghost predicate Upgraded(t: Tables, plan: Plan, mint: nat -> SetId, embedder: Embedder,
                           vectors: Vectors, sets: Sets, workspaces: Workspaces) {
    && Planned(plan, mint) && Home(plan).Keys == Namespaces(t.flat)
    && Refiled(t.flat, Home(plan), embedder, vectors)
    && Registered(t.flat, Home(plan), embedder, t.sets, sets)
    && Pointed(plan, t.workspaces, workspaces)
  }

  /** NOT NULL and the re-key cannot fail on a table whose namespaces all have a home. */
  lemma LabelledIsRefiled(flat: Flat, home: map<string, SetId>, embedder: Embedder)
    requires home.Keys == Namespaces(flat)
    ensures NotNull(LabelRows(flat, home, embedder))
    ensures Refiled(flat, home, embedder, Rekey(LabelRows(flat, home, embedder)))
  {
    var labelled := LabelRows(flat, home, embedder);
    forall c | c in flat ensures flat[c].namespace in home && labelled[c] == LabelRow(flat[c], home[flat[c].namespace], embedder) {
      assert flat[c].namespace in Namespaces(flat);
    }
    var vectors := Rekey(labelled);
    forall c | c in flat
      ensures KeyOf(flat, home, c) in vectors && vectors[KeyOf(flat, home, c)] == Refile(flat[c], embedder)
    {
      assert c in labelled;
    }
  }

  class Database {
    var keyed: bool        // how the vector table is keyed:
    var flat: Flat         //   by chunk id, and then this is the table,
    var vectors: Vectors   //   or by set and chunk id, and then this is
    var sets: Sets
    var workspaces: Workspaces
    var now: int

    ghost function AdoptionTables(): Tables
      reads this
    {
      Tables(flat, sets, workspaces)
    }

    /** One turn of the loop; false is the exception that aborts the migration. */
    method AdoptNamespace(ns: string, id: SetId, embedder: Embedder) returns (ok: bool)
      requires Members(flat, ns) != {}
      modifies this`flat, this`sets, this`workspaces
      ensures ok <==> Adoptable(old(flat), ns, embedder)
      ensures AdoptionTables() == if ok then AdoptOne(old(AdoptionTables()), ns, id, embedder, now) else old(AdoptionTables())
    {
      var rows := set c | c in flat && flat[c].namespace == ns;
      assert rows == Members(flat, ns);
      var member :| member in rows;
      var width := |flat[member].embedding|;
      ok := (forall c :: c in rows ==> |flat[c].embedding| == width) && Fits(ns, width, embedder);
      if !ok {
        return;
      }
      assert width == WidthOf(flat, ns);
      sets := sets[id := AdoptedSet(id, ns, width, |rows|, embedder, !HasWorkspace(workspaces, ns), now)];
      flat := LabelNamespace(flat, ns, id, embedder);
      workspaces := PointAt(workspaces, ns, id);
    }

    /**
     The loop, in whatever order the GROUP BY returns the namespaces; `mint` is the supply of fresh set
     ids.  It succeeds exactly when every namespace can be folded, and stops at the first that cannot.
     */
    method AdoptExistingVectors(embedder: Embedder, mint: nat -> SetId) returns (ok: bool, plan: Plan)
      modifies this`flat, this`sets, this`workspaces
      ensures ok <==> AllAdoptable(old(flat), embedder)
      ensures AdoptionTables() == AdoptAll(old(AdoptionTables()), plan, embedder, now)
      ensures Planned(plan, mint)
      ensures Home(plan).Keys <= Namespaces(old(flat))
      ensures ok ==> Home(plan).Keys == Namespaces(old(flat))
    {
      ghost var t0 := AdoptionTables();
      var todo := Namespaces(flat);
      plan := [];
      while todo != {}
        invariant Progress(t0, AdoptionTables(), plan, mint, todo, embedder, now)
        decreases todo
      {
        var ns :| ns in todo;
        SameRowsFacts(flat, t0.flat, ns, embedder);
        ghost var t := AdoptionTables();
        ok := AdoptNamespace(ns, mint(|plan|), embedder);
        if !ok {
          return;
        }
        ProgressStep(t0, t, plan, mint, todo, ns, embedder, now);
        plan, todo := plan + [(ns, mint(|plan|))], todo - {ns};
      }
      ok := true;
    }

    /** The adoption inside its transaction: a refusal rolls back what the loop had done. */
    method AdoptOrRollBack(embedder: Embedder, mint: nat -> SetId) returns (ok: bool, plan: Plan)
      requires Fresh(mint, sets)
      modifies this`flat, this`sets, this`workspaces
      ensures ok <==> AllAdoptable(old(flat), embedder)
      ensures ok ==> AdoptionTables() == AdoptAll(old(AdoptionTables()), plan, embedder, now)
      ensures ok ==> Planned(plan, mint) && Home(plan).Keys == Namespaces(old(flat))
      ensures ok ==> NotNull(flat)
      ensures !ok ==> AdoptionTables() == old(AdoptionTables())
    {
      ghost var t := AdoptionTables();
      var flat0, sets0, workspaces0 := flat, sets, workspaces;
      ok, plan := AdoptExistingVectors(embedder, mint);
      if ok {
        AdoptedNotNull(t, AdoptionTables(), plan, mint, embedder, now);
      } else {
        flat, sets, workspaces := flat0, sets0, workspaces0;
      }
    }

    /**
     The upgrade: adopt, then NOT NULL, then re-key on (set_id, id), then the trigger; `adopted` is the
     state between the first two.
     */
    method Upgrade(embedder: Embedder, mint: nat -> SetId) returns (ok: bool, plan: Plan, ghost adopted: Tables)
      requires !keyed && Fresh(mint, sets)
      modifies this`flat, this`vectors, this`keyed, this`sets, this`workspaces
      ensures ok <==> AllAdoptable(old(flat), embedder)
      ensures |embedder.provider| <= 64 && |embedder.model| <= 256
              && (forall ns :: ns in Namespaces(old(flat)) ==> ProperNamespace(ns)) ==>
                (ok <==> forall ns :: ns in Namespaces(old(flat)) ==>
                           exists width :: 64 <= width <= 4096 && HasWidth(old(flat), ns, width))
      ensures !ok ==> AdoptionTables() == old(AdoptionTables()) && !keyed
      ensures ok ==> Planned(plan, mint) && Home(plan).Keys == Namespaces(old(flat))
      ensures ok ==> adopted == AdoptAll(old(AdoptionTables()), plan, embedder, now)
      ensures ok ==> keyed && NotNull(adopted.flat) && vectors == Rekey(adopted.flat)
      ensures ok ==> sets == adopted.sets && workspaces == adopted.workspaces
    {
      if |embedder.provider| <= 64 && |embedder.model| <= 256 && forall ns :: ns in Namespaces(flat) ==> ProperNamespace(ns) {
        AllAdoptableIff(flat, embedder);
      }
      ok, plan := AdoptOrRollBack(embedder, mint);
      adopted := AdoptionTables();
      if ok {
        vectors, keyed := Rekey(flat), true;
      }
    }

    /**
     The downgrade.  It checks the declared widths itself; the cast to vector(N) and the restored
     primary key can still fail, and then roll it back.
     */
    method Downgrade() returns (ok: bool)
      requires keyed
      modifies this`flat, this`keyed, this`sets, this`workspaces
      ensures ok <==> Restorable(vectors)
      ensures !ok ==> keyed && sets == old(sets) && workspaces == old(workspaces)
      ensures ok ==> !keyed && flat == Restore(vectors) && sets == map[]
      ensures ok ==> workspaces == map w | w in old(workspaces) :: Workspace(old(workspaces)[w].tenant, None)
    {
      if exists a, b :: a in vectors && b in vectors && vectors[a].dim != vectors[b].dim {
        return false;
      }
      if exists a :: a in vectors && |vectors[a].embedding| != vectors[a].dim {
        return false;
      }
      if exists a, b :: a in vectors && b in vectors && a != b && a.chunkId == b.chunkId {
        return false;
      }
      ok := true;
      flat, keyed, sets := Restore(vectors), false, map[];
      workspaces := map w | w in workspaces :: Workspace(workspaces[w].tenant, None);
    }
  }

  // ---------------------------------------------------------------------------------------------
  // What the adoption leaves behind
  // ---------------------------------------------------------------------------------------------

  /** The ids are fresh: not in use, and never minted twice. */
  ghost predicate Fresh(mint: nat -> SetId, sets: Sets) {
    (forall i :: mint(i) !in sets) && (forall i, j :: mint(i) == mint(j) ==> i == j)
  }

  lemma {:induction false} AdoptAllRegisters(t: Tables, plan: Plan, mint: nat -> SetId, embedder: Embedder, now: int)
    requires Planned(plan, mint) && Fresh(mint, t.sets)
    requires forall ns :: ns in Home(plan) ==> OneWidth(t.flat, ns)
    ensures var u := AdoptAll(t, plan, embedder, now);
            && u.flat == LabelRows(t.flat, Home(plan), embedder)
            && Registered(t.flat, Home(plan), embedder, t.sets, u.sets)
            && Pointed(plan, t.workspaces, u.workspaces)
            && (forall i :: i >= |plan| ==> mint(i) !in u.sets)
    decreases |plan|
  {
    if |plan| > 0 {
      var init := plan[..|plan| - 1];
      var (ns, id) := plan[|plan| - 1];
      AdoptAllRegisters(t, init, mint, embedder, now);
      var u := AdoptAll(t, init, embedder, now);
      var home := Home(init);
      LabelsKeepRows(t.flat, home, ns, embedder);
      var row := AdoptedSet(id, ns, WidthOf(u.flat, ns), |Members(u.flat, ns)|, embedder, !HasWorkspace(u.workspaces, ns), now);
      WidthIsShared(u.flat, ns);
      LabelStep(t.flat, home, ns, id, embedder);
      DescribesKept(row, id, t.flat, home, ns, embedder);
      RegisterStep(t.flat, home, embedder, t.sets, u.sets, ns, id, row);
      PointStep(plan, t.workspaces, u.workspaces);
    } else {
      assert LabelRows(t.flat, map[], embedder) == t.flat;
    }
  }

  lemma HasWorkspaceKept(plan: Plan, before: Workspaces, after: Workspaces, ns: string)
    requires Pointed(plan, before, after)
    ensures HasWorkspace(after, ns) <==> HasWorkspace(before, ns)
  {
  }

  /** Since when a set is active, and whether a workspace row was there to point at it. */
  predicate ActiveSince(sets: Sets, id: SetId, now: int, orphaned: bool) {
    id in sets && sets[id].activatedAt == Some(now) && sets[id].orphaned == orphaned
  }

  /** An adopted set is active from now on, and orphaned exactly if its workspace has no row. */
  lemma {:induction false} OrphansHaveNoWorkspace(t: Tables, plan: Plan, mint: nat -> SetId, embedder: Embedder, now: int, ns: string)
    requires Planned(plan, mint) && Fresh(mint, t.sets) && ns in Home(plan)
    requires forall n :: n in Home(plan) ==> OneWidth(t.flat, n)
    ensures ActiveSince(AdoptAll(t, plan, embedder, now).sets, Home(plan)[ns], now, !HasWorkspace(t.workspaces, ns))
    decreases |plan|
  {
    var init := plan[..|plan| - 1];
    var (last, id) := plan[|plan| - 1];
    var u := AdoptAll(t, init, embedder, now);
    AdoptAllRegisters(t, init, mint, embedder, now);
    if ns == last {
      HasWorkspaceKept(init, t.workspaces, u.workspaces, ns);
    } else {
      OrphansHaveNoWorkspace(t, init, mint, embedder, now, ns);
      assert Home(plan)[ns] == Home(init)[ns];
      AdoptOneKeepsSets(u, last, id, embedder, now, Home(init)[ns]);
    }
  }

  lemma AdoptOneKeepsSets(t: Tables, ns: string, id: SetId, embedder: Embedder, now: int, other: SetId)
    requires other in t.sets && other != id
    ensures other in AdoptOne(t, ns, id, embedder, now).sets && AdoptOne(t, ns, id, embedder, now).sets[other] == t.sets[other]
  {
  }

  /** A complete adoption, ready for NOT NULL and the re-key. */
  lemma AdoptionMeans(t: Tables, u: Tables, plan: Plan, mint: nat -> SetId, embedder: Embedder, now: int)
    requires Planned(plan, mint) && Fresh(mint, t.sets) && u == AdoptAll(t, plan, embedder, now)
    requires Home(plan).Keys == Namespaces(t.flat)
    requires AllAdoptable(t.flat, embedder)
    ensures NotNull(u.flat) && Upgraded(t, plan, mint, embedder, Rekey(u.flat), u.sets, u.workspaces)
  {
    AdoptAllRegisters(t, plan, mint, embedder, now);
    LabelledIsRefiled(t.flat, Home(plan), embedder);
  }

  lemma AdoptedNotNull(t: Tables, u: Tables, plan: Plan, mint: nat -> SetId, embedder: Embedder, now: int)
    requires Planned(plan, mint) && Fresh(mint, t.sets) && u == AdoptAll(t, plan, embedder, now)
    requires Home(plan).Keys == Namespaces(t.flat) && AllAdoptable(t.flat, embedder)
    ensures NotNull(u.flat)
  {
    AdoptionMeans(t, u, plan, mint, embedder, now);
  }

  lemma WidthIsShared(flat: Flat, ns: string)
    requires OneWidth(flat, ns)
    ensures forall c :: c in Members(flat, ns) ==> |flat[c].embedding| == WidthOf(flat, ns)
  {
  }

  // ---------------------------------------------------------------------------------------------
  // Theorems about the upgrade and the downgrade
  // ---------------------------------------------------------------------------------------------

  /** Every vector names a set of its own model and its own measured width: the trigger accepts them all. */
  lemma UpgradeIsCoherent(flat: Flat, home: map<string, SetId>, embedder: Embedder, vectors: Vectors, before: Sets, sets: Sets)
    requires Refiled(flat, home, embedder, vectors) && Registered(flat, home, embedder, before, sets)
    ensures Coherent(vectors, sets)
    ensures forall key :: key in vectors ==> vectors[key].dim == |vectors[key].embedding|
  {
    forall key | key in vectors ensures Admits(sets, key, vectors[key]) && vectors[key].dim == |vectors[key].embedding| {
      var c := key.chunkId;
      assert vectors[KeyOf(flat, home, c)] == Refile(flat[c], embedder);
      assert Founded(flat, home, embedder, before, sets, flat[c].namespace) && c in Members(flat, flat[c].namespace);
    }
  }

  /** The counts of the sets founded for a plan. */
  ghost function FoundedCount(plan: Plan, sets: Sets): nat {
    if |plan| == 0 then 0
    else
      var id := plan[|plan| - 1].1;
      FoundedCount(plan[..|plan| - 1], sets) + if id in sets then sets[id].vectorCount else 0
  }

  function RowsOf(flat: Flat, home: map<string, SetId>): set<ChunkId> {
    set c | c in flat && flat[c].namespace in home
  }

  lemma OneMoreHome(flat: Flat, home: map<string, SetId>, ns: string, id: SetId)
    requires ns !in home
    ensures |RowsOf(flat, home[ns := id])| == |RowsOf(flat, home)| + |Members(flat, ns)|
  {
    assert RowsOf(flat, home[ns := id]) == RowsOf(flat, home) + Members(flat, ns);
    assert RowsOf(flat, home) !! Members(flat, ns);
  }

  lemma {:induction false} CountsAddUp(flat: Flat, plan: Plan, mint: nat -> SetId, sets: Sets)
    requires Planned(plan, mint)
    requires forall ns :: ns in Home(plan) ==>
               Home(plan)[ns] in sets && sets[Home(plan)[ns]].vectorCount == |Members(flat, ns)|
    ensures FoundedCount(plan, sets) == |RowsOf(flat, Home(plan))|
    decreases |plan|
  {
    if |plan| == 0 {
      assert RowsOf(flat, Home(plan)) == {};
    } else {
      var init := plan[..|plan| - 1];
      var (ns, id) := plan[|plan| - 1];
      forall n | n in Home(init) ensures Home(init)[n] in sets && sets[Home(init)[n]].vectorCount == |Members(flat, n)| {
        assert Home(plan)[n] == Home(init)[n];
      }
      CountsAddUp(flat, init, mint, sets);
      assert Home(plan)[ns] == id;
      OneMoreHome(flat, Home(init), ns, id);
    }
  }

  /** No row is lost or counted twice: the new sets' `vector_count` values sum to the row count. */
  lemma UpgradeConservesCount(flat: Flat, plan: Plan, mint: nat -> SetId, embedder: Embedder, vectors: Vectors,
                              before: Sets, sets: Sets)
    requires Planned(plan, mint) && Refiled(flat, Home(plan), embedder, vectors)
    requires Registered(flat, Home(plan), embedder, before, sets)
    ensures FoundedCount(plan, sets) == |flat| == |vectors|
  {
    forall ns | ns in Home(plan)
      ensures Home(plan)[ns] in sets && sets[Home(plan)[ns]].vectorCount == |Members(flat, ns)|
    {
      assert Founded(flat, Home(plan), embedder, before, sets, ns);
    }
    CountsAddUp(flat, plan, mint, sets);
    assert RowsOf(flat, Home(plan)) == flat.Keys;
    SameSize(flat, Home(plan), embedder, vectors);
  }

  lemma RefiledWithout(flat: Flat, home: map<string, SetId>, embedder: Embedder, vectors: Vectors, c: ChunkId)
    requires Refiled(flat, home, embedder, vectors) && c in flat
    ensures Refiled(flat - {c}, home, embedder, vectors - {KeyOf(flat, home, c)})
  {
    assert forall d :: d in flat - {c} ==> KeyOf(flat - {c}, home, d) == KeyOf(flat, home, d);
  }

  lemma {:induction false} SameSize(flat: Flat, home: map<string, SetId>, embedder: Embedder, vectors: Vectors)
    requires Refiled(flat, home, embedder, vectors)
    ensures |flat| == |vectors|
    decreases |flat|
  {
    if flat == map[] {
      assert vectors.Keys == {};
    } else {
      var c :| c in flat;
      var key := KeyOf(flat, home, c);
      assert flat.Keys == (flat - {c}).Keys + {c};
      assert vectors.Keys == (vectors - {key}).Keys + {key};
      RefiledWithout(flat, home, embedder, vectors, c);
      SameSize(flat - {c}, home, embedder, vectors - {key});
    }
  }

  /** All the embeddings of a flat table have one width, as its vector(N) column demands. */
  predicate SingleWidth(flat: Flat) {
    forall a, b :: a in flat && b in flat ==> |flat[a].embedding| == |flat[b].embedding|
  }

  /**
   Downgrading an upgraded table succeeds exactly when the flat table had a single width, and gives
   back that table: same chunk ids, namespaces and embeddings.
   */
  lemma UpgradeThenDowngrade(flat: Flat, home: map<string, SetId>, embedder: Embedder, vectors: Vectors)
    requires Refiled(flat, home, embedder, vectors)
    ensures Restorable(vectors) <==> SingleWidth(flat)
    ensures Restorable(vectors) && Bare(flat) ==> Restore(vectors) == flat
  {
    forall key | key in vectors ensures vectors[key] == Refile(flat[key.chunkId], embedder) { }
    if Restorable(vectors) {
      forall a, b | a in flat && b in flat ensures |flat[a].embedding| == |flat[b].embedding| {
        assert KeyOf(flat, home, a) in vectors && KeyOf(flat, home, b) in vectors;
      }
      if Bare(flat) { RestoreIsFlat(flat, home, embedder, vectors); }
    }
  }

  lemma RestoreIsFlat(flat: Flat, home: map<string, SetId>, embedder: Embedder, vectors: Vectors)
    requires Refiled(flat, home, embedder, vectors) && Restorable(vectors) && Bare(flat)
    ensures Restore(vectors) == flat
  {
    var back := Restore(vectors);
    forall c | c in flat ensures c in back && back[c] == flat[c] {
      var key := KeyOf(flat, home, c);
      assert key in vectors && key.chunkId == c;
    }
  }

  /**
   All of it, for what `Upgrade` leaves behind: every row in a set of its own space, no row lost, and a
   downgrade that gives the flat table back exactly when it had a single width.
   */
  lemma UpgradeIsSound(t: Tables, u: Tables, plan: Plan, mint: nat -> SetId, embedder: Embedder, now: int)
    requires Planned(plan, mint) && Fresh(mint, t.sets) && u == AdoptAll(t, plan, embedder, now)
    requires Home(plan).Keys == Namespaces(t.flat) && AllAdoptable(t.flat, embedder)
    ensures
      && NotNull(u.flat)
      && var vectors := Rekey(u.flat);
      && Coherent(vectors, u.sets)
      && FoundedCount(plan, u.sets) == |t.flat| == |vectors|
      && (Restorable(vectors) <==> SingleWidth(t.flat))
      && (Restorable(vectors) && Bare(t.flat) ==> Restore(vectors) == t.flat)
  {
    AdoptionMeans(t, u, plan, mint, embedder, now);
    var vectors := Rekey(u.flat);
    UpgradeIsCoherent(t.flat, Home(plan), embedder, vectors, t.sets, u.sets);
    UpgradeConservesCount(t.flat, plan, mint, embedder, vectors, t.sets, u.sets);
    UpgradeThenDowngrade(t.flat, Home(plan), embedder, vectors);
  }

  /**
   Later writes can block the downgrade although there is still one width: a re-embed at the same width
   leaves a chunk in two sets, every vector coherent, and the restored PRIMARY KEY (id) fails.
   */
  lemma SharedChunkBlocksDowngrade(vectors: Vectors, sets: Sets, key: Key, other: SetId, row: VectorRow)
    requires Coherent(vectors, sets) && Restorable(vectors) && key in vectors
    requires other != key.setId && Admits(sets, Key(other, key.chunkId), row)
    requires row.dim == vectors[key].dim == |row.embedding|
    ensures var later := vectors[Key(other, key.chunkId) := row];
            && Coherent(later, sets)
            && (forall a, b :: a in later && b in later ==> later[a].dim == later[b].dim)
            && !Restorable(later)
  {
    var added := Key(other, key.chunkId);
    var later := vectors[added := row];
    assert key in later && added in later && key != added;
  }

  /** Of canonical namespaces at most one decodes to a workspace, so that one is the last adopted for it. */
  lemma {:induction false} CanonicalIsLast(plan: Plan, mint: nat -> SetId, ns: string)
    requires Planned(plan, mint) && ns in Home(plan)
    requires forall n :: n in Home(plan) ==> Names.Canonical(n)
    ensures LastAdopted(plan, Names.Decode(ns).0, Names.Decode(ns).1) == Some(Home(plan)[ns])
    decreases |plan|
  {
    var init, last := plan[..|plan| - 1], plan[|plan| - 1].0;
    assert last in Home(plan);
    if Names.Decode(last) == Names.Decode(ns) {
      Names.CanonicalDecodesApart(last, ns);
    } else {
      assert forall n :: n in Home(init) ==> n in Home(plan);
      CanonicalIsLast(init, mint, ns);
    }
  }

  /** With canonical namespaces a workspace points at the one set adopted for it. */
  lemma CanonicalPointersAreExact(plan: Plan, mint: nat -> SetId, before: Workspaces, after: Workspaces, ns: string, w: string)
    requires Pointed(plan, before, after) && w in before && Planned(plan, mint)
    requires forall n :: n in Home(plan) ==> Names.Canonical(n)
    requires ns in Home(plan) && Names.Decode(ns) == (before[w].tenant, w)
    ensures after[w].activeSet == Some(Home(plan)[ns])
  {
    CanonicalIsLast(plan, mint, ns);
  }

  /**
   Where two namespaces decode to one workspace, it is left with two active sets and points at the one
   adopted last, so at least one of them answers nothing.
   */
  lemma CollidingNamespacesLeaveOneUnreached(t: Tables, plan: Plan, mint: nat -> SetId, embedder: Embedder, now: int,
                                             ns: string, other: string, tenant: string, w: string)
    requires Planned(plan, mint) && Fresh(mint, t.sets)
    requires forall n :: n in Home(plan) ==> OneWidth(t.flat, n)
    requires ns in Home(plan) && other in Home(plan) && ns != other
    requires Names.Decode(ns) == Names.Decode(other) == (tenant, w)
    requires w in t.workspaces && t.workspaces[w].tenant == tenant
    ensures
      var u, a, b := AdoptAll(t, plan, embedder, now), Home(plan)[ns], Home(plan)[other];
      && a != b && a in u.sets && b in u.sets && u.sets[a].status.Active? && u.sets[b].status.Active?
      && (u.sets[a].tenant, u.sets[a].workspace) == (u.sets[b].tenant, u.sets[b].workspace) == (tenant, w)
      && w in u.workspaces && u.workspaces[w].activeSet == LastAdopted(plan, tenant, w)
      && LastAdopted(plan, tenant, w).Some?
  {
    AdoptAllRegisters(t, plan, mint, embedder, now);
    var u := AdoptAll(t, plan, embedder, now);
    assert Founded(t.flat, Home(plan), embedder, t.sets, u.sets, ns);
    assert Founded(t.flat, Home(plan), embedder, t.sets, u.sets, other);
    SomeIsLast(plan, mint, ns);
  }

  lemma {:induction false} SomeIsLast(plan: Plan, mint: nat -> SetId, ns: string)
    requires Planned(plan, mint) && ns in Home(plan)
    ensures LastAdopted(plan, Names.Decode(ns).0, Names.Decode(ns).1).Some?
    decreases |plan|
  {
    if plan[|plan| - 1].0 != ns {
      SomeIsLast(plan[..|plan| - 1], mint, ns);
    }
  }
}
