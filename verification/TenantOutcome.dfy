/**
  * What migration 009 makes of every single catalogue entry, said key by key and without the program:
  * the tables, columns, constraints, indexes, functions and policies it leaves, and that it leaves
  * everything else alone.  The program is shown to come to exactly that.
  */
module TenantOutcome {
  import opened Wrappers
  import opened TenantInventory
  import opened TenantMigration
  import opened TenantMigrationProofs

  // ---------------------------------------------------------------- the wanted outcome

  /** What becomes of an entry. */
  datatype Fate =
    | Untouched
    | Added(o: Object)                                   // unless something bears the name
    | Checked(o: Object)                                 // the same, and validated either way
    | Always(o: Object)
    | Rebuilt(o: Object)                                 // whatever was there
    | Built(o: Object)                                   // unless something valid bears the name
    | Gone
    | Keyed(columns: seq<Column>, ifSingle: bool)        // primary key

  function Resulting(f: Fate, start: Option<Object>): Option<Object> {
    match f
    case Untouched => start
    case Added(o) => if start.Some? then start else Some(o)
    case Checked(o) => Some((if start.Some? then start.value else o).(ok := true))
    case Always(o) => Some(o)
    case Rebuilt(o) => Some(o)
    case Built(o) => if start.Some? && start.value.ok then start else Some(o)
    case Gone => None
    case Keyed(columns, ifSingle) =>
      if start.Some? && (if ifSingle then |start.value.columns| != 1 else start.value.columns == columns) then start
      else Some(Object(columns, PrimaryKeyDef, true))
  }

  ghost predicate IsComposite(inv: Inventory, t: Table, column: Column, fk: Fk) {
    fk in inv.fks && fk.child == t && fk.childColumn == column
  }

  ghost function TableFate(t: Table): Fate {
    if t == Table.Tenants then Added(Object([Column.Id, Column.CreatedAt], TableDef, true)) else Untouched
  }

  /** Every scoped table gets tenant_id, with the seed as its default; billing_state loses its id. */
  ghost function ColumnFate(inv: Inventory, seed: Option<string>, t: Table, c: Column): Fate {
    if c == Column.TenantId && t in inv.tables then Added(Object([Column.TenantId], NotNullText(seed), true))
    else if c == Column.Id && t == Table.BillingState then Gone
    else Untouched
  }

  ghost function ConstraintFate(inv: Inventory, t: Table, name: ConstraintName): Fate {
    match name
    case TenantIdFk => if t in inv.tables then Checked(Object([Column.TenantId], ToTenants, false)) else Untouched
    case Tfk(c) =>
      if fk :| IsComposite(inv, t, c, fk) then
        Checked(Object([Column.TenantId, c], ToParent(fk.parent, fk.parentColumn), false))
      else Untouched
    case ParentUnique(c) =>
      if (t, c) in inv.parents then Added(Object([Column.TenantId, c], UniqueDef, true)) else Untouched
    case TenantUnique(c) =>
      if UniqueSwap(t, c) in inv.swaps then Added(Object([Column.TenantId, c], UniqueDef, true)) else Untouched
    case ColumnUnique(c) => if UniqueSwap(t, c) in inv.swaps then Gone else Untouched
    case PrimaryKey =>
      if t == Table.SystemSettings then Keyed([Column.TenantId, Column.ItemKey], true)
      else if t == Table.BillingState then Keyed([Column.TenantId], false)
      else Untouched
    case StorageScopeKey => if t == Table.PluginStorage then Gone else Untouched
    case StorageTenantScopeKey =>
      if t == Table.PluginStorage then
        Added(Object([Column.TenantId, Column.Scope, Column.UserId, Column.PluginName, Column.Namespace,
                      Column.ItemKey], UniqueDef, true))
      else Untouched
    case BillingSingleton => if t == Table.BillingState then Gone else Untouched
    case BillingOnePerTenant => if t == Table.BillingState then Gone else Untouched
    case OtherConstraint(_) => Untouched
  }

  ghost function IndexFate(inv: Inventory, name: IndexName): Fate {
    match name
    case TenantIdIndex(t) =>
      if t !in inv.tables then Untouched
      else if t in inv.large then Built(Object([Column.TenantId], PlainIndexDef, true))
      else Added(Object([Column.TenantId], PlainIndexDef, true))
    case StorageLookup =>
      Rebuilt(Object([Column.TenantId, Column.Scope, Column.UserId, Column.PluginName, Column.Namespace,
                      Column.ItemKey], PlainIndexDef, true))
    case StorageSystemKey =>
      Rebuilt(Object([Column.TenantId, Column.PluginName, Column.Namespace, Column.ItemKey],
                     UniqueIndexDef("scope = 'system'"), true))
    case ResetTokenHash => Rebuilt(Object([Column.TokenHash], UniqueIndexDef("true"), true))
    case VerificationTokenHash => Rebuilt(Object([Column.EmailVerificationTokenHash], UniqueIndexDef("IS NOT NULL"), true))
    case StripeCustomer => Added(Object([Column.StripeCustomerId], UniqueIndexDef("IS NOT NULL"), true))
    case OtherIndex(_) => Untouched
  }

  /** The five functions that find the tenant of a value. */
  ghost function FunctionFate(name: FunctionName): Fate {
    match name
    case ForUserId => Always(Object([], TenantLookup(Table.Users, Column.Id), true))
    case ForEmail => Always(Object([], TenantLookup(Table.Users, Column.Email), true))
    case ForResetToken => Always(Object([], TenantLookup(Table.PasswordResetToken, Column.TokenHash), true))
    case ForVerificationToken => Always(Object([], TenantLookup(Table.Users, Column.EmailVerificationTokenHash), true))
    case ForStripeCustomer => Always(Object([], TenantLookup(Table.BillingState, Column.StripeCustomerId), true))
    case OtherFunction(_) => Untouched
  }

  ghost function FateOf(inv: Inventory, seed: Option<string>, k: Key): Fate {
    match k
    case TableKey(t) => TableFate(t)
    case SeedKey(tenant) => if seed == Some(tenant) then Added(Object([], SeedRow, true)) else Untouched
    case ColumnKey(t, c) => ColumnFate(inv, seed, t, c)
    case ConstraintKey(t, name) => ConstraintFate(inv, t, name)
    case IndexKey(name) => IndexFate(inv, name)
    case FunctionKey(name) => FunctionFate(name)
    case RlsKey(t, _) => if t in inv.tables then Always(Object([], RlsOn, true)) else Untouched
    case PolicyKey(t, name) =>
      if t in inv.tables && name == TenantIsolation then Rebuilt(Object([Column.TenantId], TenantPolicy, true))
      else Untouched
  }

  // ---------------------------------------------------------------- every statement serves its key's fate

  predicate Serves(f: Fate, a: Action) {
    match f
    case Untouched => false
    case Added(o) => a == CreateIfMissing(o)
    case Checked(o) => a == CreateIfMissing(o) || a == MarkOk
    case Always(o) => a == Put(o)
    case Rebuilt(o) => a == DropIfExists || a == CreateIfMissing(o) || a == Put(o)
    case Built(_) => false
    case Gone => a == DropIfExists
    case Keyed(columns, ifSingle) => a == SwapPrimaryKey(columns, ifSingle)
  }

  ghost predicate InPlace(inv: Inventory, seed: Option<string>, e: Event) {
    e.Sql? && Serves(FateOf(inv, seed, e.key), e.action)
  }

  lemma BodyInPlace(inv: Inventory, seed: Option<string>, p: Pass, i: nat)
    requires Consistent(inv) && Distinct(inv) && p != ConcurrentIndexes && i < Count(inv, p)
    ensures EventsAre(Body(inv, seed, p, i), e => InPlace(inv, seed, e))
  {
    match p
    case TenantColumns => assert inv.tables[i] in inv.tables;
    case UniqueSwaps => assert inv.swaps[i] in inv.swaps && inv.swaps[i] == UniqueSwap(inv.swaps[i].table, inv.swaps[i].column);
    case TenantIndexes => assert inv.tables[i] in inv.tables;
    case TenantFks => assert inv.tables[i] in inv.tables;
    case ParentUniques => assert inv.parents[i] in inv.parents && inv.parents[i] == (inv.parents[i].0, inv.parents[i].1);
    case CompositeFks => assert IsComposite(inv, inv.fks[i].child, inv.fks[i].childColumn, inv.fks[i]);
    case RowSecurity => assert inv.tables[i] in inv.tables;
  }

  lemma SeedsInPlace(inv: Inventory, seed: Option<string>)
    ensures EventsAre(SeedTenants(seed), e => InPlace(inv, seed, e))
    ensures EventsAre(SystemSettingsKey(), e => InPlace(inv, seed, e))
  {
  }

  lemma StorageInPlace(inv: Inventory, seed: Option<string>)
    ensures EventsAre(PluginStorageKeys(), e => InPlace(inv, seed, e))
  {
  }

  lemma LookupsInPlace(inv: Inventory, seed: Option<string>)
    ensures EventsAre(LookupIndexes(), e => InPlace(inv, seed, e))
  {
  }

  lemma ResolversInPlace(inv: Inventory, seed: Option<string>)
    ensures EventsAre(TenantResolvers(), e => InPlace(inv, seed, e))
  {
  }

  lemma BillingInPlace(inv: Inventory, seed: Option<string>)
    ensures EventsAre(BillingStateKeys(), e => InPlace(inv, seed, e))
  {
  }

  function Statements(inv: Inventory, seed: Option<string>): seq<Event> {
    AllEvents(inv, seed, Part1(seed)) + AllEvents(inv, seed, Part2())
  }

  lemma ProgramInPlace(inv: Inventory, seed: Option<string>)
    requires Consistent(inv) && Distinct(inv)
    ensures EventsAre(Statements(inv, seed), e => InPlace(inv, seed, e))
  {
    hide EventsAre, InPlace, Body;
    var q := e => InPlace(inv, seed, e);
    SeedsInPlace(inv, seed);
    StorageInPlace(inv, seed);
    LookupsInPlace(inv, seed);
    ResolversInPlace(inv, seed);
    BillingInPlace(inv, seed);
    forall p, i | p != ConcurrentIndexes && 0 <= i < Count(inv, p) ensures EventsAre(Body(inv, seed, p, i), q) {
      BodyInPlace(inv, seed, p, i);
    }
    ProgramIs(inv, seed, q);
  }

  // ---------------------------------------------------------------- every wanted entry has a statement

  predicate IsSql(e: Event) { e.Sql? }

  predicate Mentions(es: seq<Event>, k: Key) {
    exists e :: e in es && e.Sql? && e.key == k
  }

  lemma InPartOne(inv: Inventory, seed: Option<string>, i: nat, e: Event)
    requires i < 7 && e.Sql? && e in Events(inv, seed, Part1(seed)[i])
    ensures Mentions(Statements(inv, seed), e.key)
  {
    hide Events;
    SectionsContain(inv, seed, Part1(seed), i, e);
    assert e in Statements(inv, seed);
  }

  lemma InPartTwo(inv: Inventory, seed: Option<string>, i: nat, e: Event)
    requires i < 6 && e.Sql? && e in Events(inv, seed, Part2()[i])
    ensures Mentions(Statements(inv, seed), e.key)
  {
    hide Events;
    SectionsContain(inv, seed, Part2(), i, e);
    assert e in Statements(inv, seed);
  }

  lemma InLoop(inv: Inventory, seed: Option<string>, p: Pass, i: nat, j: nat)
    requires i < Count(inv, p) && p != ConcurrentIndexes && j < |Body(inv, seed, p, i)| && Body(inv, seed, p, i)[j].Sql?
    ensures Mentions(Statements(inv, seed), Body(inv, seed, p, i)[j].key)
  {
    var e := Body(inv, seed, p, i)[j];
    LoopContains(inv, seed, p, i, Count(inv, p), e);
    hide Body, Loop;
    match p
    case TenantColumns => InPartOne(inv, seed, 1, e);
    case UniqueSwaps => InPartOne(inv, seed, 3, e);
    case TenantIndexes => InPartOne(inv, seed, 5, e);
    case TenantFks => InPartOne(inv, seed, 6, e);
    case ParentUniques => InPartTwo(inv, seed, 2, e);
    case CompositeFks => InPartTwo(inv, seed, 3, e);
    case RowSecurity => InPartTwo(inv, seed, 5, e);
  }

  lemma MentionedTable(inv: Inventory, seed: Option<string>, k: Key)
    requires k.TableKey? || k.SeedKey? || k.FunctionKey?
    requires FateOf(inv, seed, k) != Untouched
    ensures Mentions(Statements(inv, seed), k)
  {
    hide Statements, Mentions, AllEvents;
    var a, b := SeedTenants(seed), TenantResolvers();
    match k
    case TableKey(_) => InPartOne(inv, seed, 0, a[0]);
    case SeedKey(_) => InPartOne(inv, seed, 0, a[1]);
    case FunctionKey(_) =>
      var i := if k == b[0].key then 0 else if k == b[1].key then 1 else if k == b[2].key then 2
               else if k == b[3].key then 3 else 4;
      InPartTwo(inv, seed, 1, b[i]);
  }

  lemma MentionedInLoop(inv: Inventory, seed: Option<string>, k: Key)
    requires k.ColumnKey? || k.RlsKey? || k.PolicyKey?
    requires FateOf(inv, seed, k) != Untouched
    ensures Mentions(Statements(inv, seed), k)
  {
    hide Statements, Mentions, AllEvents;
    if k == ColumnKey(Table.BillingState, Column.Id) {
      InPartTwo(inv, seed, 4, BillingStateKeys()[3]);
    } else {
      var i :| 0 <= i < |inv.tables| && inv.tables[i] == k.table;
      match k
      case ColumnKey(_, _) => InLoop(inv, seed, TenantColumns, i, 0);
      case RlsKey(_, forced) => InLoop(inv, seed, RowSecurity, i, if forced then 1 else 0);
      case PolicyKey(_, _) => InLoop(inv, seed, RowSecurity, i, 2);
    }
  }

  lemma MentionedIndex(inv: Inventory, seed: Option<string>, k: Key)
    requires k.IndexKey? && !IndexFate(inv, k.index).Built? && IndexFate(inv, k.index) != Untouched
    ensures Mentions(Statements(inv, seed), k)
  {
    hide Statements, Mentions, AllEvents;
    match k.index
    case TenantIdIndex(t) =>
      var i :| 0 <= i < |inv.tables| && inv.tables[i] == t;
      InLoop(inv, seed, TenantIndexes, i, 0);
    case StorageLookup => InPartOne(inv, seed, 4, PluginStorageKeys()[1]);
    case StorageSystemKey => InPartOne(inv, seed, 4, PluginStorageKeys()[2]);
    case ResetTokenHash => InPartTwo(inv, seed, 0, LookupIndexes()[0]);
    case VerificationTokenHash => InPartTwo(inv, seed, 0, LookupIndexes()[2]);
    case StripeCustomer => InPartTwo(inv, seed, 0, LookupIndexes()[4]);
  }

  lemma MentionedConstraint(inv: Inventory, seed: Option<string>, k: Key)
    requires k.ConstraintKey? && ConstraintFate(inv, k.table, k.constraint) != Untouched
    ensures Mentions(Statements(inv, seed), k)
  {
    hide Statements, Mentions, AllEvents;
    var t := k.table;
    match k.constraint
    case TenantIdFk =>
      var i :| 0 <= i < |inv.tables| && inv.tables[i] == t;
      InLoop(inv, seed, TenantFks, i, 0);
    case Tfk(c) =>
      var fk :| IsComposite(inv, t, c, fk);
      var i :| 0 <= i < |inv.fks| && inv.fks[i] == fk;
      InLoop(inv, seed, CompositeFks, i, 0);
    case ParentUnique(c) =>
      var i :| 0 <= i < |inv.parents| && inv.parents[i] == (t, c);
      InLoop(inv, seed, ParentUniques, i, 0);
    case TenantUnique(c) =>
      var i :| 0 <= i < |inv.swaps| && inv.swaps[i] == UniqueSwap(t, c);
      InLoop(inv, seed, UniqueSwaps, i, 1);
    case ColumnUnique(c) =>
      var i :| 0 <= i < |inv.swaps| && inv.swaps[i] == UniqueSwap(t, c);
      InLoop(inv, seed, UniqueSwaps, i, 0);
    case PrimaryKey =>
      if t == Table.SystemSettings { InPartOne(inv, seed, 2, SystemSettingsKey()[0]); }
      else { InPartTwo(inv, seed, 4, BillingStateKeys()[2]); }
    case StorageScopeKey => InPartOne(inv, seed, 4, PluginStorageKeys()[0]);
    case StorageTenantScopeKey => InPartOne(inv, seed, 4, PluginStorageKeys()[3]);
    case BillingSingleton => InPartTwo(inv, seed, 4, BillingStateKeys()[0]);
    case BillingOnePerTenant => InPartTwo(inv, seed, 4, BillingStateKeys()[1]);
  }

  // ---------------------------------------------------------------- statements that serve a fate bring it about

  ghost predicate AllServe(es: seq<Event>, k: Key, f: Fate) {
    forall e :: e in es && e.Sql? && e.key == k ==> Serves(f, e.action)
  }

  lemma {:induction false} ServedFold(es: seq<Event>, k: Key, f: Fate, c: Cell)
    requires AllServe(es, k, f) && EventsAre(es, e => IsSql(e)) && !c.building
    requires f.Untouched? || f.Added? || f.Always? || f.Gone? || f.Keyed?
    ensures Fold(c, es, k) == if Mentions(es, k) then Cell(Resulting(f, c.obj), false) else c
    decreases |es|
  {
    if es != [] {
      var init, last := es[..|es| - 1], es[|es| - 1];
      assert es == init + [last] && last in es;
      ServedFold(init, k, f, c);
      assert Mentions(es, k) <==> Mentions(init, k) || last.key == k by {
        if e :| e in init && e.Sql? && e.key == k { assert e in es; }
      }
    }
  }

  lemma StatementsServe(inv: Inventory, seed: Option<string>, k: Key)
    requires Consistent(inv) && Distinct(inv)
    ensures AllServe(Statements(inv, seed), k, FateOf(inv, seed, k)) && EventsAre(Statements(inv, seed), e => IsSql(e))
  {
    hide FateOf, Statements, Serves, Consistent, Distinct;
    ProgramInPlace(inv, seed);
  }

  lemma AroundOne(seed: Option<string>)
    ensures Part1(seed) == Part1(seed)[..4] + [Once(PluginStorageKeys())] + Part1(seed)[5..]
    ensures Part2() == [] + [Once(LookupIndexes())] + Part2()[1..]
  {
    hide SeedTenants, SystemSettingsKey, PluginStorageKeys, LookupIndexes, TenantResolvers, BillingStateKeys;
  }

  lemma StorageSection(inv: Inventory, seed: Option<string>, k: Key, c: Cell)
    requires IsStorageIndex(k)
    ensures Fold(c, Statements(inv, seed), k) == Fold(c, PluginStorageKeys(), k)
  {
    AroundOne(seed);
    AroundStorage(inv, seed, k);
    PartTwoAvoids(inv, seed, k);
    hide *;
    ThreeParts(inv, seed, Part1(seed)[..4], PluginStorageKeys(), Part1(seed)[5..], k, c);
    StatementsFold(inv, seed, k, c);
    FoldAvoided(Fold(c, AllEvents(inv, seed, Part1(seed)), k), AllEvents(inv, seed, Part2()), k);
  }

  lemma StatementsFold(inv: Inventory, seed: Option<string>, k: Key, c: Cell)
    ensures Fold(c, Statements(inv, seed), k) ==
            Fold(Fold(c, AllEvents(inv, seed, Part1(seed)), k), AllEvents(inv, seed, Part2()), k)
  {
    hide AllEvents, Fold, Part1, Part2;
    FoldAppend(c, AllEvents(inv, seed, Part1(seed)), AllEvents(inv, seed, Part2()), k);
  }

  lemma LookupSection(inv: Inventory, seed: Option<string>, k: Key, c: Cell)
    requires k == IndexKey(ResetTokenHash) || k == IndexKey(VerificationTokenHash)
    ensures Fold(c, Statements(inv, seed), k) ==
            Fold(Fold(c, AllEvents(inv, seed, Part1(seed)), k), LookupIndexes(), k)
  {
    AroundOne(seed);
    AfterLookups(inv, seed, k);
    hide *;
    StatementsFold(inv, seed, k, c);
    ThreeParts(inv, seed, [], LookupIndexes(), Part2()[1..], k, Fold(c, AllEvents(inv, seed, Part1(seed)), k));
  }

  /** The four indexes that are dropped and built again, within the section that does it. */
  lemma RebuiltIndex(inv: Inventory, seed: Option<string>, k: Key, c: Cell)
    requires k.IndexKey? && IndexFate(inv, k.index).Rebuilt?
    ensures Fold(c, Statements(inv, seed), k).obj == Some(IndexFate(inv, k.index).o)
  {
    hide Fold, AllEvents, Statements, PluginStorageKeys, LookupIndexes;
    if IsStorageIndex(k) {
      StorageSection(inv, seed, k, c);
      StorageFold(k, c);
    } else {
      LookupSection(inv, seed, k, c);
      LookupFold(k, Fold(c, AllEvents(inv, seed, Part1(seed)), k));
    }
  }

  lemma ThreeParts(inv: Inventory, seed: Option<string>, before: seq<Section>, es: seq<Event>, after: seq<Section>,
                   k: Key, c: Cell)
    requires Avoids(AllEvents(inv, seed, before), k) && Avoids(AllEvents(inv, seed, after), k)
    ensures Fold(c, AllEvents(inv, seed, before + [Once(es)] + after), k) == Fold(c, es, k)
  {
    var a, z := AllEvents(inv, seed, before), AllEvents(inv, seed, after);
    AllEventsAppend(inv, seed, before + [Once(es)], after);
    AllEventsAppend(inv, seed, before, [Once(es)]);
    AllEventsOne(inv, seed, Once(es));
    hide AllEvents;
    FoldAppend(c, a + es, z, k);
    FoldAppend(c, a, es, k);
    FoldAvoided(c, a, k);
    FoldAvoided(Fold(c, es, k), z, k);
  }

  predicate IsStorageIndex(k: Key) {
    k == IndexKey(StorageLookup) || k == IndexKey(StorageSystemKey)
  }

  predicate Elsewhere(e: Event) {
    e.Commit? || !e.key.IndexKey? || e.key.index.TenantIdIndex?
  }

  lemma LoopsElsewhere(inv: Inventory, seed: Option<string>, p: Pass)
    requires p != ConcurrentIndexes
    ensures SectionIs(inv, seed, ForEach(p), e => Elsewhere(e))
  {
  }

  lemma ElsewhereAvoids(es: seq<Event>, k: Key)
    requires EventsAre(es, e => Elsewhere(e)) && k.IndexKey? && !k.index.TenantIdIndex?
    ensures Avoids(es, k)
  {
  }

  lemma AroundStorage(inv: Inventory, seed: Option<string>, k: Key)
    requires IsStorageIndex(k)
    ensures Avoids(AllEvents(inv, seed, Part1(seed)[..4]), k) && Avoids(AllEvents(inv, seed, Part1(seed)[5..]), k)
  {
    var q := e => Elsewhere(e);
    assert SectionIs(inv, seed, Once(SeedTenants(seed)), q) && SectionIs(inv, seed, Once(SystemSettingsKey()), q);
    forall p | p != ConcurrentIndexes ensures SectionIs(inv, seed, ForEach(p), q) { LoopsElsewhere(inv, seed, p); }
    hide SectionIs, SeedTenants, SystemSettingsKey, PluginStorageKeys, AllEvents;
    SectionsAre(inv, seed, Part1(seed)[..4], q);
    SectionsAre(inv, seed, Part1(seed)[5..], q);
    ElsewhereAvoids(AllEvents(inv, seed, Part1(seed)[..4]), k);
    ElsewhereAvoids(AllEvents(inv, seed, Part1(seed)[5..]), k);
  }

  lemma TailElsewhere(inv: Inventory, seed: Option<string>)
    ensures var q := e => Elsewhere(e);
      SectionIs(inv, seed, Once(TenantResolvers()), q) && SectionIs(inv, seed, Once(BillingStateKeys()), q)
  {
  }

  lemma AfterLookups(inv: Inventory, seed: Option<string>, k: Key)
    requires k.IndexKey? && !k.index.TenantIdIndex?
    ensures Avoids(AllEvents(inv, seed, Part2()[1..]), k) && Avoids(AllEvents(inv, seed, []), k)
  {
    var q := e => Elsewhere(e);
    TailElsewhere(inv, seed);
    forall p | p != ConcurrentIndexes ensures SectionIs(inv, seed, ForEach(p), q) { LoopsElsewhere(inv, seed, p); }
    hide SectionIs, TenantResolvers, BillingStateKeys, LookupIndexes;
    SectionsAre(inv, seed, Part2()[1..], q);
    ElsewhereAvoids(AllEvents(inv, seed, Part2()[1..]), k);
  }

  lemma PartTwoAvoids(inv: Inventory, seed: Option<string>, k: Key)
    requires IsStorageIndex(k)
    ensures Avoids(AllEvents(inv, seed, Part2()), k)
  {
    assert k.IndexKey? && !k.index.TenantIdIndex?;
    LookupsAvoid(k);
    hide *;
    AfterLookups(inv, seed, k);
    AroundOne(seed);
    NothingBefore([Once(LookupIndexes())], Part2()[1..]);
    AllEventsAppend(inv, seed, [Once(LookupIndexes())], Part2()[1..]);
    AllEventsOne(inv, seed, Once(LookupIndexes()));
    OnceEvents(inv, seed, LookupIndexes());
    AvoidsBoth(LookupIndexes(), AllEvents(inv, seed, Part2()[1..]), k);
  }

  lemma LookupsAvoid(k: Key)
    requires IsStorageIndex(k)
    ensures Avoids(LookupIndexes(), k)
  {
  }

  lemma NothingBefore(xs: seq<Section>, ys: seq<Section>)
    ensures [] + xs + ys == xs + ys
  {
  }

  lemma OnceEvents(inv: Inventory, seed: Option<string>, es: seq<Event>)
    ensures Events(inv, seed, Once(es)) == es
  {
  }

  lemma AvoidsBoth(xs: seq<Event>, ys: seq<Event>, k: Key)
    requires Avoids(xs, k) && Avoids(ys, k)
    ensures Avoids(xs + ys, k)
  {
  }

  lemma StorageFold(k: Key, c: Cell)
    requires IsStorageIndex(k)
    ensures Fold(c, PluginStorageKeys(), k).obj == Some(
      if k == IndexKey(StorageLookup) then
        Object([Column.TenantId, Column.Scope, Column.UserId, Column.PluginName, Column.Namespace, Column.ItemKey],
               PlainIndexDef, true)
      else
        Object([Column.TenantId, Column.PluginName, Column.Namespace, Column.ItemKey],
               UniqueIndexDef("scope = 'system'"), true))
  {
    var es := PluginStorageKeys();
    assert es == [es[0], es[1], es[2]] + [es[3], es[4], es[5]];
    FoldAppend(c, [es[0], es[1], es[2]], [es[3], es[4], es[5]], k);
    FoldThree(c, es[0], es[1], es[2], k);
    FoldThree(Fold(c, [es[0], es[1], es[2]], k), es[3], es[4], es[5], k);
    hide Fold;
  }

  lemma LookupFold(k: Key, c: Cell)
    requires k == IndexKey(ResetTokenHash)
             || k == IndexKey(VerificationTokenHash)
    ensures Fold(c, LookupIndexes(), k).obj == Some(
      if k == IndexKey(ResetTokenHash) then
        Object([Column.TokenHash], UniqueIndexDef("true"), true)
      else
        Object([Column.EmailVerificationTokenHash], UniqueIndexDef("IS NOT NULL"), true))
  {
    var es := LookupIndexes();
    assert es == [es[0], es[1], es[2]] + [es[3], es[4]];
    FoldAppend(c, [es[0], es[1], es[2]], [es[3], es[4]], k);
    FoldThree(c, es[0], es[1], es[2], k);
    var b := Fold(c, [es[0], es[1], es[2]], k);
    FoldTwo(b, es[3], es[4], k);
    hide Fold;
  }

  lemma FoldTwo(c: Cell, e0: Event, e1: Event, k: Key)
    ensures Fold(c, [e0, e1], k) == FoldOne(FoldOne(c, e0, k), e1, k)
  {
    assert [e0, e1][..1] == [e0] && [e0][..0] == [];
    assert Fold(c, [e0], k) == FoldOne(c, e0, k);
  }

  // ---------------------------------------------------------------- main result

  lemma MentionedOr(inv: Inventory, seed: Option<string>, k: Key)
    requires !FateOf(inv, seed, k).Untouched? && !FateOf(inv, seed, k).Built?
    ensures Mentions(Statements(inv, seed), k)
  {
    hide Statements, Mentions;
    match k
    case TableKey(_) => MentionedTable(inv, seed, k);
    case SeedKey(_) => MentionedTable(inv, seed, k);
    case FunctionKey(_) => MentionedTable(inv, seed, k);
    case ColumnKey(_, _) => MentionedInLoop(inv, seed, k);
    case RlsKey(_, _) => MentionedInLoop(inv, seed, k);
    case PolicyKey(_, _) => MentionedInLoop(inv, seed, k);
    case IndexKey(_) => MentionedIndex(inv, seed, k);
    case ConstraintKey(_, _) => MentionedConstraint(inv, seed, k);
  }

  lemma CheckedKey(inv: Inventory, seed: Option<string>, c: Catalogue, k: Key)
    requires Consistent(inv) && Distinct(inv) && FateOf(inv, seed, k).Checked?
    ensures CellIn(Complete(inv, seed, c), k).obj == Resulting(FateOf(inv, seed, k), CellIn(c, k).obj)
  {
    var own: Object;
    match k.constraint {
      case TenantIdFk =>
        own := TENANT_FK;
        assert AddedAs(inv, k, own);
        TenantFkAtEnd(inv, seed, c, k.table);
      case Tfk(column) =>
        var fk :| IsComposite(inv, k.table, column, fk);
        own := CompositeFkObject(fk);
        assert AddedAs(inv, k, own);
        CompositeFkAtEnd(inv, seed, c, fk);
    }
    hide Complete, AllEvents, Fold, Consistent;
    ProgramSuits(inv, seed, k.table, k.constraint, own);
    ShapeKept(Statements(inv, seed), k, own, CellIn(c, k));
    CompleteCell(inv, seed, c, k);
  }

  /** The fates that every single statement on the key serves. */
  lemma ServedEntry(inv: Inventory, seed: Option<string>, k: Key, x: Cell)
    requires Consistent(inv) && Distinct(inv) && !x.building
    requires var f := FateOf(inv, seed, k); f.Untouched? || f.Added? || f.Always? || f.Gone? || f.Keyed?
    ensures Fold(x, Statements(inv, seed), k).obj == Resulting(FateOf(inv, seed, k), x.obj)
  {
    hide Statements, Consistent, Distinct, Fold, FateOf;
    var f := FateOf(inv, seed, k);
    StatementsServe(inv, seed, k);
    ServedFold(Statements(inv, seed), k, f, x);
    if !f.Untouched? { MentionedOr(inv, seed, k); }
  }

  lemma BuiltIsLarge(inv: Inventory, seed: Option<string>, k: Key)
    requires Consistent(inv)
    ensures FateOf(inv, seed, k).Built? <==> IsLargeIndex(inv, k)
    ensures FateOf(inv, seed, k).Rebuilt? ==> k.PolicyKey? || k.IndexKey?
  {
  }

  /** Whatever the catalogue was, the completed migration has turned every entry into what its fate
    * says, and no other entry has changed. */
  lemma EveryEntry(inv: Inventory, seed: Option<string>, c: Catalogue, k: Key)
    requires Consistent(inv) && Distinct(inv)
    ensures CellIn(Complete(inv, seed, c), k).obj == Resulting(FateOf(inv, seed, k), CellIn(c, k).obj)
  {
    var f, x := FateOf(inv, seed, k), CellIn(c, k);
    hide Fold, Consistent, Distinct, Complete, Part1, Part2;
    BuiltIsLarge(inv, seed, k);
    CompleteCell(inv, seed, c, k);
    match f
    case Checked(_) => CheckedKey(inv, seed, c, k);
    case Built(_) =>
    case Rebuilt(_) =>
      if k.PolicyKey? { RowSecurityAtEnd(inv, seed, c, k.table, k); } else { RebuiltIndex(inv, seed, k, x); }
    case _ => ServedEntry(inv, seed, k, x);
  }

  /** The migration itself: on its own lists, after any interruptions, and whatever the catalogue was. */
  lemma MigrationOutcome(seed: Option<string>, c: Catalogue, stops: seq<nat>, k: Key)
    ensures CellIn(Complete(INVENTORY, seed, Attempts(INVENTORY, seed, c, stops)), k).obj ==
            Resulting(FateOf(INVENTORY, seed, k), CellIn(c, k).obj)
  {
    hide *;
    OwnInventoryIsConsistent();
    OwnInventoryIsDistinct();
    InterruptedUpgradeConverges(INVENTORY, seed, c, stops);
    EveryEntry(INVENTORY, seed, c, k);
  }
}
