/**
  * Migration 009 (tenant isolation) as a program of DDL statements over a schema catalogue.  The
  * program runs in one transaction that an autocommit block cuts in two; it may be interrupted
  * before any statement, and inside a concurrent index build, and is then run again from the start
  * on whatever was committed.
  */
module TenantMigration {
  import opened Wrappers
  import opened TenantInventory

  /** Names as structured values: those built from a table and a column, those written out in full,
    * and any others. */
  datatype ConstraintName =
    | TenantIdFk                    // <table>_tenant_id_fk
    | Tfk(column: Column)           // <table>_<column>_tfk
    | ParentUnique(column: Column)  // <table>_tenant_id_<column>_unique
    | TenantUnique(column: Column)  // uq_<table>_tenant_<column>
    | ColumnUnique(column: Column)  // <table>_<column>_key
    | PrimaryKey                    // <table>_pkey
    | StorageScopeKey               // uq_plugin_storage_scope_key
    | StorageTenantScopeKey         // uq_plugin_storage_tenant_scope_key
    | BillingSingleton              // billing_state_singleton
    | BillingOnePerTenant           // billing_state_one_per_tenant
    | OtherConstraint(name: string)

  datatype IndexName =
    | TenantIdIndex(table: Table)   // ix_<table>_tenant_id
    | StorageLookup                 // ix_plugin_storage_lookup
    | StorageSystemKey              // uq_plugin_storage_system_scope_key
    | ResetTokenHash                // ix_password_reset_token_token_hash
    | VerificationTokenHash         // ix_users_email_verification_token_hash
    | StripeCustomer                // uq_billing_state_stripe_customer_id
    | OtherIndex(name: string)

  datatype FunctionName =
    | ForUserId | ForEmail | ForResetToken | ForVerificationToken | ForStripeCustomer   // tenant_for_...
    | OtherFunction(name: string)

  datatype PolicyName = TenantIsolation | OtherPolicy(name: string)

  datatype Key =
    | TableKey(table: Table)
    | SeedKey(tenant: string)
    | ColumnKey(table: Table, column: Column)
    | ConstraintKey(table: Table, constraint: ConstraintName)
    | IndexKey(index: IndexName)
    | FunctionKey(name: FunctionName)
    | RlsKey(table: Table, forced: bool)
    | PolicyKey(table: Table, policy: PolicyName)

  datatype Definition =
    | TableDef | SeedRow | NotNullText(default: Option<string>) | UniqueDef | PrimaryKeyDef | PlainIndexDef
    | UniqueIndexDef(condition: string) | ToTenants | ToParent(parent: Table, column: Column)
    | TenantPolicy | RlsOn | TenantLookup(table: Table, column: Column)

  /** A catalogue entry.  `ok` is convalidated for a constraint and indisvalid for an index. */
  datatype Object = Object(columns: seq<Column>, definition: Definition, ok: bool)

  type Catalogue = map<Key, Object>

  datatype Action =
    | CreateIfMissing(obj: Object)
    | Put(obj: Object)                 // CREATE after DROP, CREATE OR REPLACE, ENABLE, FORCE
    | MarkOk                              // VALIDATE CONSTRAINT
    | DropIfExists
    | SwapPrimaryKey(wanted: seq<Column>, legacyArity: bool)
    | DropIfInvalid                       // autocommit block only
    | BuildStart(obj: Object)          // CREATE INDEX CONCURRENTLY IF NOT EXISTS, first phase
    | BuildFinish                         // its last phase

  /** One thing the migration does: a statement inside the transaction, a statement of the
    * autocommit block (committed at once), or a commit. */
  datatype Event = Sql(key: Key, action: Action) | Auto(key: Key, action: Action) | Commit

  // ---------------------------------------------------------------- executing events

  /** One catalogue entry as a session sees it; `building` is session-local and dies with it. */
  datatype Cell = Cell(obj: Option<Object>, building: bool)

  /** 009 swaps the primary key of system_settings when it has one column, and that of
    * billing_state when it is not (tenant_id). */
  predicate KeepsPrimaryKey(o: Object, wanted: seq<Column>, legacyArity: bool) {
    if legacyArity then |o.columns| != 1 else o.columns == wanted
  }

  function StepCell(c: Cell, a: Action): Cell {
    match a
    case CreateIfMissing(o) => if c.obj.None? then c.(obj := Some(o)) else c
    case Put(o) => c.(obj := Some(o))
    case MarkOk => if c.obj.None? then c else c.(obj := Some(c.obj.value.(ok := true)))
    case DropIfExists => c.(obj := None)
    case SwapPrimaryKey(wanted, arity) =>
      if c.obj.Some? && KeepsPrimaryKey(c.obj.value, wanted, arity) then c
      else c.(obj := Some(Object(wanted, PrimaryKeyDef, true)))
    case DropIfInvalid => if c.obj.Some? && !c.obj.value.ok then c.(obj := None) else c
    case BuildStart(o) => if c.obj.None? then Cell(Some(o.(ok := false)), true) else c
    case BuildFinish =>
      if c.building && c.obj.Some? then Cell(Some(c.obj.value.(ok := true)), false) else c
  }

  function CellOf(m: Catalogue, building: set<Key>, k: Key): Cell {
    Cell(if k in m then Some(m[k]) else None, k in building)
  }

  datatype Work = Work(catalogue: Catalogue, building: set<Key>)

  function Exec(w: Work, e: Event): Work {
    if e.Commit? then w
    else
      var c := StepCell(CellOf(w.catalogue, w.building, e.key), e.action);
      Work(if c.obj.Some? then w.catalogue[e.key := c.obj.value] else w.catalogue - {e.key},
           if c.building then w.building + {e.key} else w.building - {e.key})
  }

  function ExecAll(w: Work, es: seq<Event>): Work {
    if es == [] then w else Exec(ExecAll(w, es[..|es| - 1]), es[|es| - 1])
  }

  /** The length of the longest prefix of `es` that ends in something committed. */
  function CommittedPrefix(es: seq<Event>): (n: nat)
    ensures n <= |es|
  {
    if es == [] then 0
    else if es[|es| - 1].Sql? then CommittedPrefix(es[..|es| - 1])
    else |es|
  }

  function Fresh(c: Catalogue): Work {
    Work(c, {})
  }

  /** What is on disk after a run on c has executed `seen` and then died. */
  function OnDisk(c: Catalogue, seen: seq<Event>): Catalogue {
    ExecAll(Fresh(c), seen[..CommittedPrefix(seen)]).catalogue
  }

  /** The same for the first n events of a program. */
  function Interrupted(c: Catalogue, es: seq<Event>, n: nat): Catalogue {
    OnDisk(c, if n <= |es| then es[..n] else es)
  }

  lemma OnDiskStep(c: Catalogue, seen: seq<Event>, e: Event)
    ensures ExecAll(Fresh(c), seen + [e]) == Exec(ExecAll(Fresh(c), seen), e)
    ensures OnDisk(c, seen + [e]) ==
            if e.Sql? then OnDisk(c, seen) else ExecAll(Fresh(c), seen + [e]).catalogue
  {
    var more := seen + [e];
    assert more[..|seen|] == seen && more[..|more|] == more;
    var n := CommittedPrefix(seen);
    assert more[..n] == seen[..n];
  }

  /** A database connection that dies after `budget` events; a dead connection ignores everything
    * and its uncommitted work is gone. */
  class Connection {
    var committed: Catalogue
    var working: Work
    var budget: nat
    ghost var start: Catalogue
    ghost var issued: seq<Event>

    ghost predicate Valid()
      reads this
    {
      && working == ExecAll(Fresh(start), issued)
      && committed == OnDisk(start, issued)
    }

    constructor (c: Catalogue, n: nat)
      ensures Valid() && start == c && issued == [] && budget == n && committed == c
    {
      committed, working, budget, start, issued := c, Fresh(c), n, c, [];
    }

    /** Executes the event and, outside the transaction, commits it. */
    method Issue(e: Event)
      requires Valid()
      modifies this
      ensures Valid() && start == old(start)
      ensures if old(budget) == 0 then budget == 0 && issued == old(issued)
              else budget == old(budget) - 1 && issued == old(issued) + [e]
    {
      if budget == 0 { return; }
      OnDiskStep(start, issued, e);
      working := Exec(working, e);
      budget := budget - 1;
      issued := issued + [e];
      if !e.Sql? {
        committed := working.catalogue;
      }
    }

    /** Consecutive statements. */
    method Emit(es: seq<Event>)
      requires Valid()
      modifies this
      ensures Valid() && start == old(start)
      ensures Progress(old(issued), old(budget), es, issued, budget)
    {
      var i := 0;
      while i < |es|
        invariant 0 <= i <= |es|
        invariant Valid() && start == old(start)
        invariant Progress(old(issued), old(budget), es[..i], issued, budget)
      {
        assert es[..i + 1] == es[..i] + [es[i]];
        Issue(es[i]);
        i := i + 1;
      }
      assert es[..i] == es;
    }
  }

  /** With b events left, a list of events gets as far as the budget allows. */
  ghost predicate Progress(issued: seq<Event>, b: nat, es: seq<Event>, issued': seq<Event>, b': nat) {
    var n := if b < |es| then b else |es|;
    issued' == issued + es[..n] && b' == b - n
  }

  lemma ProgressThen(s0: seq<Event>, b0: nat, xs: seq<Event>, s1: seq<Event>, b1: nat,
                     ys: seq<Event>, s2: seq<Event>, b2: nat)
    requires Progress(s0, b0, xs, s1, b1) && Progress(s1, b1, ys, s2, b2)
    ensures Progress(s0, b0, xs + ys, s2, b2)
  {
  }

  lemma OnDiskIsInterrupted(c: Catalogue, es: seq<Event>, b: nat, issued: seq<Event>, b': nat)
    requires Progress([], b, es, issued, b')
    ensures OnDisk(c, issued) == Interrupted(c, es, b)
  {
    assert es[..|es|] == es;
    assert issued == if b <= |es| then es[..b] else es;
  }

  // ---------------------------------------------------------------- the program

  /** A column-level UNIQUE that becomes one within the tenant. */
  datatype UniqueSwap = UniqueSwap(table: Table, column: Column)

  /** The lists the migration iterates over.  `concurrent` is the large tables that are tenant
    * scoped, `parents` the distinct parents of the foreign keys. */
  datatype Inventory = Inventory(
    tables: seq<Table>,
    large: set<Table>,
    concurrent: seq<Table>,
    swaps: seq<UniqueSwap>,
    parents: seq<(Table, Column)>,
    fks: seq<Fk>)

  const UNIQUE_SWAPS: seq<UniqueSwap> :=
    [UniqueSwap(Table.McpServerConnections, Column.DisplayName), UniqueSwap(Table.AccessPolicies, Column.DisplayName),
     UniqueSwap(Table.KnowledgeBases, Column.Slug), UniqueSwap(Table.Experiences, Column.Slug),
     UniqueSwap(Table.UserGroups, Column.DisplayName)]

  /** The distinct parents of the composite foreign keys, sorted. */
  const PARENTS: seq<(Table, Column)> :=
    [(Table.AccessPolicies, Column.Id), (Table.Attachments, Column.Id), (Table.Conversations, Column.Id),
     (Table.DocumentChunks, Column.Id), (Table.Documents, Column.Id), (Table.Experiences, Column.Id),
     (Table.KnowledgeBases, Column.Id), (Table.Messages, Column.Id), (Table.ModelConfigurations, Column.Id),
     (Table.PluginFeeds, Column.Id), (Table.Prompts, Column.Id), (Table.UserGroups, Column.Id),
     (Table.Users, Column.Id)]

  /** The migration's own lists. */
  const INVENTORY := Inventory(TENANT_SCOPED_TABLES, {Table.DocumentChunks}, [Table.DocumentChunks],
                               UNIQUE_SWAPS, PARENTS, COMPOSITE_FKS)

  ghost predicate Consistent(inv: Inventory) {
    && (forall t :: t in inv.concurrent <==> t in inv.large && t in inv.tables)
    && (forall p :: p in inv.parents <==> exists fk :: fk in inv.fks && (fk.parent, fk.parentColumn) == p)
  }

  lemma ParentsAreListed(p: (Table, Column))
    ensures p in PARENTS <==> p.1 == Column.Id && IsParent(p.0)
  {
    hide FkAt;
    if p.1 == Column.Id && IsParent(p.0) {
      var i := ParentPosition(p.0);
      assert PARENTS[i] == p;
    }
  }

  function ParentPosition(t: Table): nat
    requires IsParent(t)
  {
    match t
    case AccessPolicies => 0
    case Attachments => 1
    case Conversations => 2
    case DocumentChunks => 3
    case Documents => 4
    case Experiences => 5
    case KnowledgeBases => 6
    case Messages => 7
    case ModelConfigurations => 8
    case PluginFeeds => 9
    case Prompts => 10
    case UserGroups => 11
    case _ => 12
  }

  lemma ParentsAreTheKeys(p: (Table, Column))
    ensures p in PARENTS <==> exists fk :: fk in COMPOSITE_FKS && (fk.parent, fk.parentColumn) == p
  {
    hide FkAt, IsParent, PARENTS;
    ParentsAreListed(p);
    if p in PARENTS {
      ParentsReferred(p.0);
      IdsOnly(KeyInto(p.0));
      assert COMPOSITE_FKS[KeyInto(p.0)] == FkAt(KeyInto(p.0));
    }
    if fk :| fk in COMPOSITE_FKS && (fk.parent, fk.parentColumn) == p {
      var i :| 0 <= i < FK_COUNT && COMPOSITE_FKS[i] == fk;
      IdsOnly(i);
      ParentsListed(i);
    }
  }

  /** They are consistent: the concurrently indexed tables are the large ones among the scoped, and
    * the parents are exactly those the foreign keys name. */
  lemma OwnInventoryIsConsistent()
    ensures Consistent(INVENTORY)
  {
    hide FkAt, PARENTS, COMPOSITE_FKS;
    forall p: (Table, Column)
      ensures p in PARENTS <==> exists fk :: fk in COMPOSITE_FKS && (fk.parent, fk.parentColumn) == p
    {
      ParentsAreTheKeys(p);
    }
    assert TENANT_SCOPED_TABLES[8] == Table.DocumentChunks;
  }

  /** The loops of upgrade(), in order. */
  datatype Pass =
    | TenantColumns | UniqueSwaps | TenantIndexes | TenantFks
    | ConcurrentIndexes | ParentUniques | CompositeFks | RowSecurity

  function Count(inv: Inventory, p: Pass): nat {
    match p
    case UniqueSwaps => |inv.swaps|
    case ConcurrentIndexes => |inv.concurrent|
    case ParentUniques => |inv.parents|
    case CompositeFks => |inv.fks|
    case _ => |inv.tables|
  }

  const TENANT_ID: Column := Column.TenantId

  function TenantColumn(seed: Option<string>): Object {
    Object([TENANT_ID], NotNullText(seed), true)
  }

  function Unique(columns: seq<Column>): Object { Object(columns, UniqueDef, true) }

  function PlainIndex(columns: seq<Column>): Object { Object(columns, PlainIndexDef, true) }

  function PartialUniqueIndex(columns: seq<Column>, condition: string): Object {
    Object(columns, UniqueIndexDef(condition), true)
  }

  const TENANT_FK := Object([TENANT_ID], ToTenants, false)

  function CompositeFkObject(fk: Fk): Object {
    Object([TENANT_ID, fk.childColumn], ToParent(fk.parent, fk.parentColumn), false)
  }

  /** AS PERMISSIVE FOR ALL TO PUBLIC, USING and WITH CHECK tenant_id = the session setting. */
  const TENANT_POLICY := Object([TENANT_ID], TenantPolicy, true)

  const ON := Object([], RlsOn, true)

  /** The statements of the i-th iteration of a loop. */
  function Body(inv: Inventory, seed: Option<string>, p: Pass, i: nat): seq<Event>
    requires i < Count(inv, p)
  {
    match p
    case TenantColumns => [Sql(ColumnKey(inv.tables[i], TENANT_ID), CreateIfMissing(TenantColumn(seed)))]
    case UniqueSwaps =>
      var s := inv.swaps[i];
      [Sql(ConstraintKey(s.table, ColumnUnique(s.column)), DropIfExists),
       Sql(ConstraintKey(s.table, TenantUnique(s.column)), CreateIfMissing(Unique([TENANT_ID, s.column])))]
    case TenantIndexes =>
      if inv.tables[i] in inv.large then []
      else [Sql(IndexKey(TenantIdIndex(inv.tables[i])), CreateIfMissing(PlainIndex([TENANT_ID])))]
    case TenantFks =>
      var k := ConstraintKey(inv.tables[i], TenantIdFk);
      [Sql(k, CreateIfMissing(TENANT_FK)), Sql(k, MarkOk)]
    case ConcurrentIndexes =>
      var k := IndexKey(TenantIdIndex(inv.concurrent[i]));
      [Auto(k, DropIfInvalid), Auto(k, BuildStart(PlainIndex([TENANT_ID]))), Auto(k, BuildFinish)]
    case ParentUniques =>
      var (parent, column) := inv.parents[i];
      [Sql(ConstraintKey(parent, ParentUnique(column)), CreateIfMissing(Unique([TENANT_ID, column])))]
    case CompositeFks =>
      var fk := inv.fks[i];
      var k := ConstraintKey(fk.child, Tfk(fk.childColumn));
      [Sql(k, CreateIfMissing(CompositeFkObject(fk))), Sql(k, MarkOk)]
    case RowSecurity =>
      var t := inv.tables[i];
      [Sql(RlsKey(t, false), Put(ON)), Sql(RlsKey(t, true), Put(ON)),
       Sql(PolicyKey(t, TenantIsolation), DropIfExists), Sql(PolicyKey(t, TenantIsolation), Put(TENANT_POLICY))]
  }

  /** The first n iterations of a loop. */
  function Loop(inv: Inventory, seed: Option<string>, p: Pass, n: nat): seq<Event>
    requires n <= Count(inv, p)
  {
    if n == 0 then [] else Loop(inv, seed, p, n - 1) + Body(inv, seed, p, n - 1)
  }

  function SeedTenants(seed: Option<string>): seq<Event> {
    [Sql(TableKey(Table.Tenants), CreateIfMissing(Object([Column.Id, Column.CreatedAt], TableDef, true)))]
    + if seed.None? then [] else [Sql(SeedKey(seed.value), CreateIfMissing(Object([], SeedRow, true)))]
  }

  function SystemSettingsKey(): seq<Event> {
    [Sql(ConstraintKey(Table.SystemSettings, PrimaryKey), SwapPrimaryKey([TENANT_ID, Column.ItemKey], true))]
  }

  const STORAGE_COLUMNS: seq<Column> :=
    [TENANT_ID, Column.Scope, Column.UserId, Column.PluginName, Column.Namespace, Column.ItemKey]

  function PluginStorageKeys(): seq<Event> {
    var lookup, system := IndexKey(StorageLookup), IndexKey(StorageSystemKey);
    [Sql(ConstraintKey(Table.PluginStorage, StorageScopeKey), DropIfExists),
     Sql(lookup, DropIfExists),
     Sql(system, DropIfExists),
     Sql(ConstraintKey(Table.PluginStorage, StorageTenantScopeKey),
         CreateIfMissing(Unique(STORAGE_COLUMNS))),
     Sql(lookup, CreateIfMissing(PlainIndex(STORAGE_COLUMNS))),
     Sql(system, CreateIfMissing(PartialUniqueIndex([TENANT_ID, Column.PluginName, Column.Namespace, Column.ItemKey], "scope = 'system'")))]
  }

  function LookupIndexes(): seq<Event> {
    var reset := IndexKey(ResetTokenHash);
    var verify := IndexKey(VerificationTokenHash);
    [Sql(reset, DropIfExists),
     Sql(reset, CreateIfMissing(PartialUniqueIndex([Column.TokenHash], "true"))),
     Sql(verify, DropIfExists),
     Sql(verify, CreateIfMissing(PartialUniqueIndex([Column.EmailVerificationTokenHash], "IS NOT NULL"))),
     Sql(IndexKey(StripeCustomer),
         CreateIfMissing(PartialUniqueIndex([Column.StripeCustomerId], "IS NOT NULL")))]
  }

  /** A SECURITY DEFINER function that returns the tenant of the row whose column has the value. */
  function Resolver(name: FunctionName, table: Table, column: Column): Event {
    Sql(FunctionKey(name), Put(Object([], TenantLookup(table, column), true)))
  }

  function TenantResolvers(): seq<Event> {
    [Resolver(ForUserId, Table.Users, Column.Id),
     Resolver(ForEmail, Table.Users, Column.Email),
     Resolver(ForResetToken, Table.PasswordResetToken, Column.TokenHash),
     Resolver(ForVerificationToken, Table.Users, Column.EmailVerificationTokenHash),
     Resolver(ForStripeCustomer, Table.BillingState, Column.StripeCustomerId)]
  }

  function BillingStateKeys(): seq<Event> {
    [Sql(ConstraintKey(Table.BillingState, BillingSingleton), DropIfExists),
     Sql(ConstraintKey(Table.BillingState, BillingOnePerTenant), DropIfExists),
     Sql(ConstraintKey(Table.BillingState, PrimaryKey), SwapPrimaryKey([TENANT_ID], false)),
     Sql(ColumnKey(Table.BillingState, Column.Id), DropIfExists)]
  }

  /** upgrade() section by section: statements issued once, and loops over an inventory. */
  datatype Section = Once(events: seq<Event>) | ForEach(pass: Pass)

  function Events(inv: Inventory, seed: Option<string>, section: Section): seq<Event> {
    match section
    case Once(es) => es
    case ForEach(p) => Loop(inv, seed, p, Count(inv, p))
  }

  function AllEvents(inv: Inventory, seed: Option<string>, sections: seq<Section>): seq<Event> {
    if sections == [] then []
    else AllEvents(inv, seed, sections[..|sections| - 1]) + Events(inv, seed, sections[|sections| - 1])
  }

  /** Sections A and B, up to the autocommit block. */
  function Part1(seed: Option<string>): seq<Section> {
    [Once(SeedTenants(seed)), ForEach(TenantColumns), Once(SystemSettingsKey()), ForEach(UniqueSwaps),
     Once(PluginStorageKeys()), ForEach(TenantIndexes), ForEach(TenantFks)]
  }

  /** Sections C to E, after it. */
  function Part2(): seq<Section> {
    [Once(LookupIndexes()), Once(TenantResolvers()), ForEach(ParentUniques), ForEach(CompositeFks),
     Once(BillingStateKeys()), ForEach(RowSecurity)]
  }

  /** The autocommit block commits what ran before it, and each of its statements. */
  function Sections(seed: Option<string>): seq<Section> {
    Part1(seed) + [Once([Commit]), ForEach(ConcurrentIndexes)] + Part2() + [Once([Commit])]
  }

  function Program(inv: Inventory, seed: Option<string>): seq<Event> {
    AllEvents(inv, seed, Sections(seed))
  }

  method RunLoop(conn: Connection, inv: Inventory, seed: Option<string>, p: Pass)
    requires conn.Valid()
    modifies conn
    ensures conn.Valid() && conn.start == old(conn.start)
    ensures Progress(old(conn.issued), old(conn.budget), Events(inv, seed, ForEach(p)), conn.issued, conn.budget)
  {
    hide Body, ExecAll, OnDisk;
    var i := 0;
    while i < Count(inv, p)
      invariant 0 <= i <= Count(inv, p)
      invariant conn.Valid() && conn.start == old(conn.start)
      invariant Progress(old(conn.issued), old(conn.budget), Loop(inv, seed, p, i), conn.issued, conn.budget)
    {
      ghost var s1, b1 := conn.issued, conn.budget;
      conn.Emit(Body(inv, seed, p, i));
      ProgressThen(old(conn.issued), old(conn.budget), Loop(inv, seed, p, i), s1, b1,
                   Body(inv, seed, p, i), conn.issued, conn.budget);
      i := i + 1;
    }
  }

  method RunSections(conn: Connection, inv: Inventory, seed: Option<string>, sections: seq<Section>)
    requires conn.Valid()
    modifies conn
    ensures conn.Valid() && conn.start == old(conn.start)
    ensures Progress(old(conn.issued), old(conn.budget), AllEvents(inv, seed, sections), conn.issued, conn.budget)
  {
    hide Loop, ExecAll, OnDisk;
    var i := 0;
    while i < |sections|
      invariant 0 <= i <= |sections|
      invariant conn.Valid() && conn.start == old(conn.start)
      invariant Progress(old(conn.issued), old(conn.budget), AllEvents(inv, seed, sections[..i]), conn.issued, conn.budget)
    {
      ghost var s1, b1 := conn.issued, conn.budget;
      match sections[i] {
        case Once(es) => conn.Emit(es);
        case ForEach(p) => RunLoop(conn, inv, seed, p);
      }
      assert sections[..i + 1][..i] == sections[..i];
      ProgressThen(old(conn.issued), old(conn.budget), AllEvents(inv, seed, sections[..i]), s1, b1,
                   Events(inv, seed, sections[i]), conn.issued, conn.budget);
      i := i + 1;
    }
    assert sections[..i] == sections;
  }

  /** One attempt at the migration on a connection that may die before any event. */
  method Upgrade(conn: Connection, inv: Inventory, seed: Option<string>)
    requires conn.Valid() && conn.issued == []
    modifies conn
    ensures conn.Valid() && conn.start == old(conn.start)
    ensures conn.committed == Interrupted(conn.start, Program(inv, seed), old(conn.budget))
  {
    ghost var budget := conn.budget;
    RunSections(conn, inv, seed, Sections(seed));
    OnDiskIsInterrupted(conn.start, Program(inv, seed), budget, conn.issued, conn.budget);
  }
}
