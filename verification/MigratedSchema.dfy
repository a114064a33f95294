/**
  * The foreign keys between tenant-scoped tables once migrations 009 and r009_0004 are through: the
  * older single-column keys that migrations 001 to 008 made, and the composite ones; and the store that
  * the data repair of 009 hands to them.
  */
module MigratedSchema {
  import opened Wrappers
  import opened TenantInventory
  import opened TenantStore
  import OrphanRepair

  // ---------------------------------------------------------------- the keys

  function Older(child: Table, column: Column, parent: Table, action: LegacyAction): Reference {
    Reference(child, column, parent, action, NoComposite)
  }

  const OLDER_COUNT: nat := 39

  /** The older keys, in the order of the migrations that made them. */
  function OlderAt(j: nat): Reference
    requires j < OLDER_COUNT
  {
    match j
    case 0 => Older(Table.Documents, Column.KnowledgeBaseId, Table.KnowledgeBases, Cascade)
    case 1 => Older(Table.DocumentChunks, Column.DocumentId, Table.Documents, Cascade)
    case 2 => Older(Table.DocumentChunks, Column.KnowledgeBaseId, Table.KnowledgeBases, Cascade)
    case 3 => Older(Table.PromptAssignments, Column.PromptId, Table.Prompts, Cascade)
    case 4 => Older(Table.UserPreferences, Column.UserId, Table.Users, Cascade)
    case 5 => Older(Table.LlmUsage, Column.UserId, Table.Users, LegacySetNull)
    case 6 => Older(Table.Conversations, Column.ModelConfigurationId, Table.ModelConfigurations, LegacySetNull)
    case 7 => Older(Table.Attachments, Column.ConversationId, Table.Conversations, Cascade)
    case 8 => Older(Table.Attachments, Column.UserId, Table.Users, Cascade)
    case 9 => Older(Table.MessageAttachments, Column.MessageId, Table.Messages, Cascade)
    case 10 => Older(Table.MessageAttachments, Column.AttachmentId, Table.Attachments, Cascade)
    case 11 => Older(Table.AgentMemory, Column.UserId, Table.Users, Cascade)
    case 12 => Older(Table.ProviderIdentities, Column.UserId, Table.Users, LegacyNoAction)
    case 13 => Older(Table.PluginFeeds, Column.OwnerUserId, Table.Users, LegacySetNull)
    case 14 => Older(Table.PluginExecutions, Column.ScheduleId, Table.PluginFeeds, LegacySetNull)
    case 15 => Older(Table.PluginExecutions, Column.UserId, Table.Users, Cascade)
    case 16 => Older(Table.ProviderCredentials, Column.UserId, Table.Users, LegacyNoAction)
    case 17 => Older(Table.PluginSubscriptions, Column.UserId, Table.Users, Cascade)
    case 18 => Older(Table.PluginStorage, Column.UserId, Table.Users, Cascade)
    case 19 => Older(Table.DocumentQueries, Column.DocumentId, Table.Documents, Cascade)
    case 20 => Older(Table.DocumentQueries, Column.KnowledgeBaseId, Table.KnowledgeBases, Cascade)
    case 21 => Older(Table.DocumentParticipants, Column.DocumentId, Table.Documents, Cascade)
    case 22 => Older(Table.DocumentParticipants, Column.KnowledgeBaseId, Table.KnowledgeBases, Cascade)
    case 23 => Older(Table.DocumentProjects, Column.DocumentId, Table.Documents, Cascade)
    case 24 => Older(Table.DocumentProjects, Column.KnowledgeBaseId, Table.KnowledgeBases, Cascade)
    case 25 => Older(Table.Experiences, Column.CreatedBy, Table.Users, Cascade)
    case 26 => Older(Table.Experiences, Column.ModelConfigurationId, Table.ModelConfigurations, LegacySetNull)
    case 27 => Older(Table.Experiences, Column.PromptId, Table.Prompts, LegacySetNull)
    case 28 => Older(Table.Experiences, Column.ParentVersionId, Table.Experiences, LegacySetNull)
    case 29 => Older(Table.ExperienceSteps, Column.ExperienceId, Table.Experiences, Cascade)
    case 30 => Older(Table.ExperienceSteps, Column.KnowledgeBaseId, Table.KnowledgeBases, LegacySetNull)
    case 31 => Older(Table.ExperienceRuns, Column.ExperienceId, Table.Experiences, Cascade)
    case 32 => Older(Table.ExperienceRuns, Column.UserId, Table.Users, Cascade)
    case 33 => Older(Table.ExperienceRuns, Column.PreviousRunId, Table.ExperienceRuns, LegacySetNull)
    case 34 => Older(Table.AccessPolicies, Column.CreatedBy, Table.Users, Cascade)
    case 35 => Older(Table.AccessPolicyBindings, Column.PolicyId, Table.AccessPolicies, Cascade)
    case 36 => Older(Table.AccessPolicyStatements, Column.PolicyId, Table.AccessPolicies, Cascade)
    case 37 => Older(Table.DocumentQueries, Column.SourceChunkId, Table.DocumentChunks, LegacySetNull)
    case _ => Older(Table.PasswordResetToken, Column.UserId, Table.Users, Cascade)
  }

  /** The composite key beside the j-th older key, if there is one. */
  function CoverOf(j: nat): Option<nat>
    requires j < OLDER_COUNT
  {
    match j
    case 0 => Some(16)
    case 1 => Some(7)
    case 2 => Some(8)
    case 3 => Some(38)
    case 4 => Some(45)
    case 5 => None
    case 6 => Some(6)
    case 7 => Some(4)
    case 8 => Some(5)
    case 9 => Some(26)
    case 10 => Some(25)
    case 11 => Some(3)
    case 12 => Some(40)
    case 13 => None
    case 14 => Some(35)
    case 15 => None
    case 16 => Some(39)
    case 17 => Some(37)
    case 18 => Some(36)
    case 19 => Some(13)
    case 20 => Some(14)
    case 21 => Some(9)
    case 22 => Some(10)
    case 23 => Some(11)
    case 24 => Some(12)
    case 25 => Some(21)
    case 26 => Some(22)
    case 27 => Some(23)
    case 28 => None
    case 29 => Some(19)
    case 30 => Some(20)
    case 31 => Some(17)
    case 32 => Some(18)
    case 33 => None
    case 34 => Some(0)
    case 35 => Some(1)
    case 36 => Some(2)
    case 37 => Some(15)
    case _ => Some(34)
  }

  const OWNER_KEY: nat := 24

  /** The composite keys; r009_0004 gives the owner of a knowledge base its SET NULL. */
  function CompositeAt(i: nat): Reference
    requires i < FK_COUNT
  {
    var fk := FkAt(i);
    Reference(fk.child, fk.childColumn, fk.parent, Absent, if i == OWNER_KEY then SetNullColumn else NoAction)
  }

  function OlderKeys(): Schema {
    set j | 0 <= j < OLDER_COUNT :: OlderAt(j)
  }

  function CompositeKeys(): Schema {
    set i | 0 <= i < FK_COUNT :: CompositeAt(i)
  }

  function Migrated(): Schema {
    OlderKeys() + CompositeKeys()
  }

  /** The older keys that act and that no composite key stands beside. */
  const UNCOVERED_KEYS: Schema := {
    Older(Table.PluginExecutions, Column.UserId, Table.Users, Cascade),
    Older(Table.PluginFeeds, Column.OwnerUserId, Table.Users, LegacySetNull),
    Older(Table.LlmUsage, Column.UserId, Table.Users, LegacySetNull),
    Older(Table.Experiences, Column.ParentVersionId, Table.Experiences, LegacySetNull),
    Older(Table.ExperienceRuns, Column.PreviousRunId, Table.ExperienceRuns, LegacySetNull)}

  lemma OnlyOwner(i: nat)
    requires i < FK_COUNT
    ensures FkAt(i).child == Table.KnowledgeBases ==> i == OWNER_KEY
    ensures CompositeAt(OWNER_KEY) == OwnerKey(SetNullColumn)
  {
  }

  lemma NoOlderOwner(j: nat)
    requires j < OLDER_COUNT
    ensures OlderAt(j).child != Table.KnowledgeBases
  {
  }

  /** The migrated schema is one that the results about deleting rows and owners speak of. */
  lemma MigratedQualifies()
    ensures OwnerKey(SetNullColumn) in Migrated()
    ensures forall r :: r in Migrated() ==> IsKey(r) && (r.child == Table.KnowledgeBases ==> r == OwnerKey(SetNullColumn))
  {
    hide FkAt, OlderAt, CoverOf, UNCOVERED_KEYS;
    OnlyOwner(OWNER_KEY);
    assert CompositeAt(OWNER_KEY) in CompositeKeys();
    forall r | r in Migrated() ensures IsKey(r) && (r.child == Table.KnowledgeBases ==> r == OwnerKey(SetNullColumn)) {
      if r in CompositeKeys() {
        var i :| 0 <= i < FK_COUNT && CompositeAt(i) == r;
        OnlyOwner(i);
      } else {
        var j :| 0 <= j < OLDER_COUNT && OlderAt(j) == r;
        NoOlderOwner(j);
        CoverIsRight(j);
      }
    }
  }

  /** The one case distinction over the list of older keys. */
  lemma CoverIsRight(j: nat)
    requires j < OLDER_COUNT
    ensures OlderAt(j).composite == NoComposite && OlderAt(j).legacy != Absent
    ensures CoverOf(j).Some? ==> CoverOf(j).value < FK_COUNT
    ensures CoverOf(j).None? <==> OlderAt(j) in UNCOVERED_KEYS
    ensures CoverOf(j).None? ==> Acts(OlderAt(j)) && IsUnlisted(OlderAt(j).child, OlderAt(j).column)
  {
  }

  lemma CoverMatches(j: nat)
    requires j < OLDER_COUNT && CoverOf(j).Some? && CoverOf(j).value < FK_COUNT
    ensures SameColumns(OlderAt(j), CompositeAt(CoverOf(j).value))
  {
    if j < 13 { CoverMatchesFirst(j); } else if j < 26 { CoverMatchesSecond(j); } else { CoverMatchesThird(j); }
  }

  lemma CoverMatchesFirst(j: nat)
    requires j < 13 && CoverOf(j).Some? && CoverOf(j).value < FK_COUNT
    ensures SameColumns(OlderAt(j), CompositeAt(CoverOf(j).value))
  {
  }

  lemma CoverMatchesSecond(j: nat)
    requires 13 <= j < 26 && CoverOf(j).Some? && CoverOf(j).value < FK_COUNT
    ensures SameColumns(OlderAt(j), CompositeAt(CoverOf(j).value))
  {
  }

  lemma CoverMatchesThird(j: nat)
    requires 26 <= j < OLDER_COUNT && CoverOf(j).Some? && CoverOf(j).value < FK_COUNT
    ensures SameColumns(OlderAt(j), CompositeAt(CoverOf(j).value))
  {
  }

  lemma UncoveredIsOlder(r: Reference)
    requires r in UNCOVERED_KEYS
    ensures r in OlderKeys() && Acts(r) && r.composite == NoComposite && IsUnlisted(r.child, r.column)
  {
    assert r in {OlderAt(5), OlderAt(13), OlderAt(15), OlderAt(28), OlderAt(33)};
    hide OlderAt;
    assert forall j :: 0 <= j < OLDER_COUNT ==> OlderAt(j) in OlderKeys();
  }

  lemma UncoveredHasNoComposite(schema: Schema, r: Reference)
    requires r in UNCOVERED_KEYS
    requires forall q :: q in schema && q.composite != NoComposite ==> q in CompositeKeys()
    ensures !HasComposite(schema, r)
  {
    UncoveredIsOlder(r);
    hide UNCOVERED_KEYS, FkAt;
    if HasComposite(schema, r) {
      var q :| q in schema && SameColumns(r, q) && q.composite != NoComposite;
      var i :| 0 <= i < FK_COUNT && CompositeAt(i) == q;
      UnlistedIsNotListed(i);
    }
  }

  /** Which older keys lack a composite one. */
  lemma UncoveredKeysAre(r: Reference)
    ensures r in UNCOVERED_KEYS <==> r in Migrated() && Acts(r) && !HasComposite(Migrated(), r)
  {
    hide FkAt, OlderAt, UNCOVERED_KEYS, CoverOf;
    if r in UNCOVERED_KEYS {
      UncoveredIsOlder(r);
      MigratedComposites();
      UncoveredHasNoComposite(Migrated(), r);
    } else if r in Migrated() && Acts(r) {
      var j := OlderIndex(r);
      CoverIsRight(j);
      CoverMatches(j);
      var q := CompositeAt(CoverOf(j).value);
      assert q in CompositeKeys();
    }
  }

  lemma OlderIndex(r: Reference) returns (j: nat)
    requires r in Migrated() && Acts(r)
    ensures j < OLDER_COUNT && OlderAt(j) == r
  {
    hide FkAt, OlderAt;
    assert r !in CompositeKeys();
    j :| 0 <= j < OLDER_COUNT && OlderAt(j) == r;
  }

  lemma MigratedComposites()
    ensures forall q :: q in Migrated() && q.composite != NoComposite ==> q in CompositeKeys()
  {
    hide OlderAt, CompositeAt, UNCOVERED_KEYS, CoverOf;
    forall q | q in OlderKeys() ensures q.composite == NoComposite {
      var j :| 0 <= j < OLDER_COUNT && OlderAt(j) == q;
      CoverIsRight(j);
    }
  }

  /** The migrated schema does not isolate tenants.  Without those five keys it would, and each of them
    * alone is enough to break it. */
  lemma MigratedSchemaLeaks()
    ensures !Isolates(Migrated())
    ensures Isolates(Migrated() - UNCOVERED_KEYS)
    ensures forall r :: r in UNCOVERED_KEYS ==> !Isolates(Migrated() - UNCOVERED_KEYS + {r})
  {
    var schema := Migrated();
    var rest := schema - UNCOVERED_KEYS;
    MigratedComposites();
    var first := Older(Table.PluginExecutions, Column.UserId, Table.Users, Cascade);
    assert first in UNCOVERED_KEYS;
    hide Migrated, Isolates, UNCOVERED_KEYS, CompositeKeys;
    forall q | q in rest && Acts(q) ensures HasComposite(rest, q) {
      UncoveredKeysAre(q);
      var c :| c in schema && SameColumns(q, c) && c.composite != NoComposite;
      if c in UNCOVERED_KEYS { UncoveredIsOlder(c); }
      assert c in rest;
    }
    assert Covered(rest);
    hide HasComposite, Acts;
    IsolatesIffCovered(rest);
    UncoveredKeysAre(first);
    IsolatesIffCovered(schema);
    forall r | r in UNCOVERED_KEYS ensures !Isolates(rest + {r}) {
      UncoveredIsOlder(r);
      UncoveredHasNoComposite(rest + {r}, r);
      assert r in rest + {r};
      IsolatesIffCovered(rest + {r});
    }
  }

  // ---------------------------------------------------------------- from the repair to the store

  /** Repaired rows as a store. */
  function StoreOf(rows: OrphanRepair.Rows): Store {
    map loc | loc in rows :: Row(rows[loc].tenant, rows[loc].values, "")
  }

  /** The id of a row is its primary key. */
  ghost predicate IdsAreKeys(rows: OrphanRepair.Rows) {
    forall loc :: loc in rows ==> OrphanRepair.Value(rows[loc], Column.Id) == Some(loc.1)
  }

  /** The older keys, which the database has enforced all along. */
  ghost predicate OlderKeysHold(rows: OrphanRepair.Rows) {
    forall r, loc :: r in OlderKeys() && loc in rows && loc.0 == r.child ==>
      var v := OrphanRepair.Value(rows[loc], r.column);
      v.Some? ==> (r.parent, v.value) in rows
  }

  lemma NoKeyOnIds()
    ensures forall fk :: fk in COMPOSITE_FKS ==> fk.childColumn != Column.Id
  {
    hide FkAt;
    forall fk | fk in COMPOSITE_FKS ensures fk.childColumn != Column.Id {
      var i :| 0 <= i < FK_COUNT && COMPOSITE_FKS[i] == fk;
      IdsOnly(i);
    }
  }

  lemma RepairKeepsIds(db: OrphanRepair.Rows, nullable: set<(Table, Column)>, after: OrphanRepair.Rows)
    requires OrphanRepair.IsRepairOf(db, COMPOSITE_FKS, nullable, after) && IdsAreKeys(db)
    ensures IdsAreKeys(after)
  {
    NoKeyOnIds();
    hide COMPOSITE_FKS;
  }

  lemma CompositeKeyFound(db: OrphanRepair.Rows, nullable: set<(Table, Column)>, after: OrphanRepair.Rows, i: nat, loc: Loc)
    requires OrphanRepair.IsRepairOf(db, COMPOSITE_FKS, nullable, after)
    requires OrphanRepair.Findings(db, COMPOSITE_FKS, nullable, false) == []
    requires IdsAreKeys(after) && i < FK_COUNT && loc in after && loc.0 == FkAt(i).child
    ensures ParentFound(CompositeAt(i), StoreOf(after), StoreOf(after)[loc])
  {
    hide FkAt, OrphanRepair.IsRepairOf;
    var fk := FkAt(i);
    assert COMPOSITE_FKS[i] == fk;
    OrphanRepair.InventoryIsIndependent();
    OrphanRepair.AllHoldAfterwards(db, COMPOSITE_FKS, nullable, after, fk);
    IdsOnly(i);
    var v := OrphanRepair.Value(after[loc], fk.childColumn);
    if v.Some? {
      assert !OrphanRepair.Dangles(after, fk, loc) by {
        assert loc !in OrphanRepair.Orphans(after, fk);
      }
      var p :| p in after && p.0 == fk.parent && after[p].tenant == after[loc].tenant
        && OrphanRepair.Value(after[p], fk.parentColumn) == Some(v.value);
      assert p == (fk.parent, v.value);
    }
  }

  lemma OlderKeyFound(db: OrphanRepair.Rows, nullable: set<(Table, Column)>, after: OrphanRepair.Rows, r: Reference, loc: Loc)
    requires OrphanRepair.IsRepairOf(db, COMPOSITE_FKS, nullable, after) && OlderKeysHold(db)
    requires r in OlderKeys() && r.composite == NoComposite && loc in after && loc.0 == r.child
    ensures ParentFound(r, StoreOf(after), StoreOf(after)[loc])
  {
    hide COMPOSITE_FKS, OlderKeys;
    assert OrphanRepair.Value(after[loc], r.column).Some? ==>
           OrphanRepair.Value(after[loc], r.column) == OrphanRepair.Value(db[loc], r.column);
  }

  /** Where the repair returns normally, the rows it leaves are a store in which every key of the
    * migrated schema holds: the start that the histories of that store need. */
  lemma RepairedStoreHolds(db: OrphanRepair.Rows, nullable: set<(Table, Column)>, after: OrphanRepair.Rows)
    requires OrphanRepair.IsRepairOf(db, COMPOSITE_FKS, nullable, after)
    requires OrphanRepair.Findings(db, COMPOSITE_FKS, nullable, false) == []
    requires IdsAreKeys(db) && OlderKeysHold(db)
    ensures KeysHold(Migrated(), StoreOf(after))
  {
    RepairKeepsIds(db, nullable, after);
    var store := StoreOf(after);
    hide FkAt, OlderAt, StoreOf, OrphanRepair.IsRepairOf, ParentFound;
    assert store.Keys == after.Keys by { SameRows(after); }
    forall loc, r | loc in store && r in Migrated() && r.child == loc.0 ensures ParentFound(r, store, store[loc]) {
      if r in CompositeKeys() {
        var i :| 0 <= i < FK_COUNT && CompositeAt(i) == r;
        CompositeKeyFound(db, nullable, after, i, loc);
      } else {
        MigratedComposites();
        OlderKeyFound(db, nullable, after, r, loc);
      }
    }
  }

  lemma SameRows(rows: OrphanRepair.Rows)
    ensures StoreOf(rows).Keys == rows.Keys
  {
  }

  /** So over every history that follows the repair every key holds, and without the five uncovered keys
    * a tenant's rows are exactly as its own statements leave them. */
  lemma HistoryAfterRepair(db: OrphanRepair.Rows, nullable: set<(Table, Column)>, after: OrphanRepair.Rows,
                           steps: seq<Step>, t: Tenant)
    requires OrphanRepair.IsRepairOf(db, COMPOSITE_FKS, nullable, after)
    requires OrphanRepair.Findings(db, COMPOSITE_FKS, nullable, false) == []
    requires IdsAreKeys(db) && OlderKeysHold(db)
    ensures KeysHold(Migrated(), Run(Migrated(), StoreOf(after), steps))
    ensures var rest := Migrated() - UNCOVERED_KEYS;
      (forall i :: 0 <= i < |steps| ==> steps[i].session != Some(t)) ==>
        Visible(Run(rest, StoreOf(after), steps), Some(t)) == Visible(StoreOf(after), Some(t))
  {
    RepairedStoreHolds(db, nullable, after);
    HistoryIsolates(Migrated(), StoreOf(after), steps, t);
    var rest := Migrated() - UNCOVERED_KEYS;
    MigratedSchemaLeaks();
    IsolatesIffCovered(rest);
    hide Migrated, UNCOVERED_KEYS;
    assert KeysHold(rest, StoreOf(after));
    HistoryIsolates(rest, StoreOf(after), steps, t);
  }
}
