/**
  * The store that migrations 009, r009_0004 and r009_0005 set up, as a state machine: sessions of
  * any tenants insert, update and delete rows under row security, the composite foreign keys, and
  * the older single-column foreign keys whose ON DELETE actions look at the parent's id alone and
  * run with row security off.  Some older keys have no composite key beside them.
  */
module TenantStore {
  import opened Wrappers
  import opened TenantInventory

  type Tenant = string
  type Loc = (Table, string)   // table and primary key: ids are unique within a table

  datatype Row = Row(tenant: Tenant, refs: map<Column, Option<string>>, payload: string)

  type Store = map<Loc, Row>

  /** ON DELETE of the older key on (column), if there is one. */
  datatype LegacyAction = Absent | LegacyNoAction | Cascade | LegacySetNull

  /** ON DELETE of the composite key on (tenant_id, column), if there is one: NO ACTION; SET NULL
    * (column), as r009_0004 makes it for the owner of a knowledge base; or SET NULL without a column
    * list. */
  datatype CompositeAction = NoComposite | NoAction | SetNullColumn | SetNullBoth

  datatype Reference = Reference(child: Table, column: Column, parent: Table,
                                 legacy: LegacyAction, composite: CompositeAction)

  type Schema = set<Reference>

  /** The session setting app.tenant_id; None when it is unset. */
  type Session = Option<Tenant>

  datatype Op =
    | Insert(loc: Loc, tenant: Option<Tenant>, refs: map<Column, Option<string>>, payload: string)
    | Update(loc: Loc, row: Row)
    | Delete(locs: set<Loc>)

  datatype Error = TenantIsNull | PolicyViolation | DuplicateKey | MissingParent | StillReferenced

  // ---------------------------------------------------------------- statements

  function RefOf(row: Row, c: Column): Option<string> {
    if c in row.refs then row.refs[c] else None
  }

  /** USING and WITH CHECK of the tenant policy: NULL compares to nothing. */
  predicate Passes(session: Session, tenant: Tenant) {
    session == Some(tenant)
  }

  function Visible(store: Store, session: Session): Store {
    map loc | loc in store && Passes(session, store[loc].tenant) :: store[loc]
  }

  /** The older key finds a parent with the id in any tenant, the composite one in the row's own. */
  predicate ParentFound(r: Reference, store: Store, row: Row) {
    RefOf(row, r.column).Some? ==>
      var p := (r.parent, RefOf(row, r.column).value);
      && (r.legacy != Absent ==> p in store)
      && (r.composite != NoComposite ==> p in store && store[p].tenant == row.tenant)
  }

  predicate ParentsExist(schema: Schema, store: Store, table: Table, row: Row) {
    forall r :: r in schema && r.child == table ==> ParentFound(r, store, row)
  }

  /** An omitted tenant takes the column default, current_setting('app.tenant_id'). */
  function InsertRow(schema: Schema, session: Session, store: Store, op: Op): Result<Store, Error>
    requires op.Insert?
  {
    var tenant := if op.tenant.Some? then op.tenant else session;
    if tenant.None? then Err(TenantIsNull)
    else if !Passes(session, tenant.value) then Err(PolicyViolation)
    else if op.loc in store then Err(DuplicateKey)
    else
      var row := Row(tenant.value, op.refs, op.payload);
      var store' := store[op.loc := row];
      if ParentsExist(schema, store', op.loc.0, row) then Ok(store') else Err(MissingParent)
  }

  /** An UPDATE of a row the session cannot see affects no rows. */
  function UpdateRow(schema: Schema, session: Session, store: Store, op: Op): Result<Store, Error>
    requires op.Update?
  {
    if op.loc !in store || !Passes(session, store[op.loc].tenant) then Ok(store)
    else if !Passes(session, op.row.tenant) then Err(PolicyViolation)
    else
      var store' := store[op.loc := op.row];
      if ParentsExist(schema, store', op.loc.0, op.row) then Ok(store') else Err(MissingParent)
  }

  /** The row refers, through r, to one of the given rows; ids only, as the older keys see it. */
  predicate PointsInto(r: Reference, loc: Loc, row: Row, gone: set<Loc>) {
    r.child == loc.0 && RefOf(row, r.column).Some? && (r.parent, RefOf(row, r.column).value) in gone
  }

  function CascadeOnce(schema: Schema, store: Store, gone: set<Loc>): set<Loc> {
    gone + set loc | loc in store
           && exists r :: r in schema && r.legacy == Cascade && PointsInto(r, loc, store[loc], gone)
  }

  /** The rows that go: the given ones and everything that cascades from them. */
  function Cascaded(schema: Schema, store: Store, gone: set<Loc>): (all: set<Loc>)
    requires gone <= store.Keys
    ensures gone <= all <= store.Keys && CascadeOnce(schema, store, all) == all
    decreases store.Keys - gone
  {
    var more := CascadeOnce(schema, store, gone);
    if more == gone then gone
    else
      assert store.Keys - more < store.Keys - gone by {
        var loc :| loc in more && loc !in gone;
        assert loc in store.Keys - gone && loc !in store.Keys - more;
      }
      Cascaded(schema, store, more)
  }

  /** A SET NULL action applies to this column of the row: the older one compares ids, the composite
    * one tenant and id. */
  predicate Cleared(schema: Schema, store: Store, gone: set<Loc>, loc: Loc, c: Column)
    requires loc in store && gone <= store.Keys
  {
    exists r :: r in schema && r.column == c && PointsInto(r, loc, store[loc], gone)
      && (r.legacy == LegacySetNull
          || (r.composite == SetNullColumn
              && store[(r.parent, RefOf(store[loc], c).value)].tenant == store[loc].tenant))
  }

  function ClearRow(schema: Schema, store: Store, gone: set<Loc>, loc: Loc): Row
    requires loc in store && gone <= store.Keys
  {
    store[loc].(refs := map c | c in store[loc].refs ::
      if Cleared(schema, store, gone, loc, c) then None else store[loc].refs[c])
  }

  function Survivors(schema: Schema, store: Store, gone: set<Loc>): Store
    requires gone <= store.Keys
  {
    map loc | loc in store && loc !in gone :: ClearRow(schema, store, gone, loc)
  }

  /** SET NULL without a column list would null tenant_id too, which is NOT NULL. */
  predicate NullsATenant(schema: Schema, store: Store, gone: set<Loc>)
    requires gone <= store.Keys
  {
    exists loc, r :: loc in store && loc !in gone && r in schema && r.composite == SetNullBoth
      && PointsInto(r, loc, store[loc], gone)
      && store[(r.parent, RefOf(store[loc], r.column).value)].tenant == store[loc].tenant
  }

  /** A key that still refers to a row that goes. */
  predicate Blocks(r: Reference, store: Store, gone: set<Loc>, loc: Loc, row: Row)
    requires gone <= store.Keys
  {
    PointsInto(r, loc, row, gone)
    && (r.legacy != Absent
        || (r.composite != NoComposite && store[(r.parent, RefOf(row, r.column).value)].tenant == row.tenant))
  }

  function TargetsOf(store: Store, session: Session, locs: set<Loc>): set<Loc> {
    set loc | loc in locs && loc in store && Passes(session, store[loc].tenant)
  }

  function DeleteRows(schema: Schema, session: Session, store: Store, op: Op): Result<Store, Error>
    requires op.Delete?
  {
    var gone := Cascaded(schema, store, TargetsOf(store, session, op.locs));
    var left := Survivors(schema, store, gone);
    if NullsATenant(schema, store, gone) then Err(TenantIsNull)
    else if exists loc, r :: loc in left && r in schema && Blocks(r, store, gone, loc, left[loc])
    then Err(StillReferenced)
    else Ok(left)
  }

  function Execute(schema: Schema, session: Session, store: Store, op: Op): Result<Store, Error> {
    match op
    case Insert(_, _, _, _) => InsertRow(schema, session, store, op)
    case Update(_, _) => UpdateRow(schema, session, store, op)
    case Delete(_) => DeleteRows(schema, session, store, op)
  }

  datatype Step = Step(session: Session, op: Op)

  /** A failed statement changes nothing. */
  function Next(schema: Schema, store: Store, step: Step): Store {
    var r := Execute(schema, step.session, store, step.op);
    if r.Ok? then r.value else store
  }

  function Run(schema: Schema, store: Store, steps: seq<Step>): Store
    decreases |steps|
  {
    if steps == [] then store else Run(schema, Next(schema, store, steps[0]), steps[1..])
  }

  // ---------------------------------------------------------------- what a statement does, exactly

  /** The row's reference to v through a column. */
  predicate Refers(row: Row, c: Column, v: string) {
    c in row.refs && row.refs[c] == Some(v)
  }

  /** Every reference of the row is backed: an older key by a parent with that id, a composite one by
    * a parent with that id and the row's tenant. */
  ghost predicate Backed(schema: Schema, store: Store, table: Table, row: Row) {
    forall r, v :: r in schema && r.child == table && Refers(row, r.column, v) ==>
      && (r.legacy != Absent ==> (r.parent, v) in store)
      && (r.composite != NoComposite ==> (r.parent, v) in store && store[(r.parent, v)].tenant == row.tenant)
  }

  lemma BackedIsParentsExist(schema: Schema, store: Store, table: Table, row: Row)
    ensures Backed(schema, store, table, row) <==> ParentsExist(schema, store, table, row)
  {
    forall r | r in schema && r.child == table
      ensures ParentFound(r, store, row) <==>
              forall v :: Refers(row, r.column, v) ==>
                && (r.legacy != Absent ==> (r.parent, v) in store)
                && (r.composite != NoComposite ==> (r.parent, v) in store && store[(r.parent, v)].tenant == row.tenant)
    {
      if RefOf(row, r.column).Some? {
        assert Refers(row, r.column, RefOf(row, r.column).value);
      }
    }
  }

  /** An INSERT adds exactly the given row, under the session's tenant, if the tenant given is that one
    * or none, the place is free and the references are backed; otherwise it fails, and says why. */
  lemma InsertIs(schema: Schema, session: Session, store: Store, loc: Loc, tenant: Option<Tenant>,
                 refs: map<Column, Option<string>>, payload: string)
    ensures var r := Execute(schema, session, store, Insert(loc, tenant, refs, payload));
      && (tenant == None && session == None ==> r == Err(TenantIsNull))
      && (tenant.Some? && tenant != session ==> r == Err(PolicyViolation))
      && (session.Some? && (tenant == None || tenant == session) ==>
            var row := Row(session.value, refs, payload);
            r == if loc in store then Err(DuplicateKey)
                 else if Backed(schema, store[loc := row], loc.0, row) then Ok(store[loc := row])
                 else Err(MissingParent))
  {
    if session.Some? {
      var row := Row(session.value, refs, payload);
      BackedIsParentsExist(schema, store[loc := row], loc.0, row);
    }
  }

  /** An UPDATE replaces exactly a row of the session's tenant, if the new row keeps the tenant and its
    * references are backed; a row of another tenant, or none, is not affected. */
  lemma UpdateIs(schema: Schema, session: Session, store: Store, loc: Loc, row: Row)
    ensures var r := Execute(schema, session, store, Update(loc, row));
      r == if loc !in store || session != Some(store[loc].tenant) then Ok(store)
           else if row.tenant != store[loc].tenant then Err(PolicyViolation)
           else if Backed(schema, store[loc := row], loc.0, row) then Ok(store[loc := row])
           else Err(MissingParent)
  {
    BackedIsParentsExist(schema, store[loc := row], loc.0, row);
  }

  /** A statement that fails changes nothing. */
  lemma NextIs(schema: Schema, store: Store, step: Step)
    ensures match Execute(schema, step.session, store, step.op)
      case Ok(after) => Next(schema, store, step) == after
      case Err(_) => Next(schema, store, step) == store
  {
  }

  /** A session sees the rows of its tenant. */
  lemma VisibleIs(store: Store, session: Session, loc: Loc)
    ensures loc in Visible(store, session) <==> loc in store && session == Some(store[loc].tenant)
    ensures loc in Visible(store, session) ==> Visible(store, session)[loc] == store[loc]
    ensures forall locs :: loc in TargetsOf(store, session, locs) <==> loc in locs && loc in Visible(store, session)
  {
  }

  /** The row refers to one of the given rows through an older key that cascades. */
  ghost predicate CascadesFrom(schema: Schema, store: Store, loc: Loc, gone: set<Loc>) {
    exists r, v :: r in schema && r.legacy == Cascade && r.child == loc.0 && loc in store
      && Refers(store[loc], r.column, v) && (r.parent, v) in gone
  }

  ghost predicate CascadeClosed(schema: Schema, store: Store, gone: set<Loc>) {
    forall loc :: CascadesFrom(schema, store, loc, gone) ==> loc in gone
  }

  lemma CascadeOnceIs(schema: Schema, store: Store, gone: set<Loc>, loc: Loc)
    ensures loc in CascadeOnce(schema, store, gone) <==> loc in gone || CascadesFrom(schema, store, loc, gone)
  {
    if loc in store {
      forall r | r in schema && r.legacy == Cascade
        ensures PointsInto(r, loc, store[loc], gone) <==>
                r.child == loc.0 && exists v :: Refers(store[loc], r.column, v) && (r.parent, v) in gone
      {
        if RefOf(store[loc], r.column).Some? {
          assert Refers(store[loc], r.column, RefOf(store[loc], r.column).value);
        }
      }
    }
  }

  /** The rows that go with the given ones are those that cascades reach, and no others: the least set
    * that holds the given ones and is closed under the older cascading keys. */
  lemma CascadedIsLeast(schema: Schema, store: Store, gone: set<Loc>)
    requires gone <= store.Keys
    ensures var all := Cascaded(schema, store, gone);
      && gone <= all <= store.Keys && CascadeClosed(schema, store, all)
      && forall closed: set<Loc> :: gone <= closed && CascadeClosed(schema, store, closed) ==> all <= closed
  {
    var all := Cascaded(schema, store, gone);
    forall loc | CascadesFrom(schema, store, loc, all) ensures loc in all {
      CascadeOnceIs(schema, store, all, loc);
    }
    forall closed: set<Loc> | gone <= closed && CascadeClosed(schema, store, closed) ensures all <= closed {
      CascadedWithin(schema, store, gone, closed);
    }
  }

  lemma {:induction false} CascadedWithin(schema: Schema, store: Store, gone: set<Loc>, closed: set<Loc>)
    requires gone <= store.Keys && gone <= closed && CascadeClosed(schema, store, closed)
    ensures Cascaded(schema, store, gone) <= closed
    decreases store.Keys - gone
  {
    var more := CascadeOnce(schema, store, gone);
    if more != gone {
      forall loc | loc in more ensures loc in closed {
        CascadeOnceIs(schema, store, gone, loc);
        if loc !in gone {
          var r, v :| r in schema && r.legacy == Cascade && r.child == loc.0 && loc in store
            && Refers(store[loc], r.column, v) && (r.parent, v) in gone;
          assert CascadesFrom(schema, store, loc, closed);
        }
      }
      assert store.Keys - more < store.Keys - gone by {
        var loc :| loc in more && loc !in gone;
        assert loc in store.Keys - gone && loc !in store.Keys - more;
      }
      CascadedWithin(schema, store, more, closed);
    }
  }

  // ---------------------------------------------------------------- the invariant

  /** Every key of every row finds its parent; the composite ones find it in the row's tenant. */
  ghost predicate KeysHold(schema: Schema, store: Store) {
    forall loc :: loc in store ==> ParentsExist(schema, store, loc.0, store[loc])
  }

  /** The older key changes or deletes rows when their parent goes. */
  predicate Acts(r: Reference) {
    r.legacy == Cascade || r.legacy == LegacySetNull
  }

  predicate SameColumns(r: Reference, q: Reference) {
    r.child == q.child && r.column == q.column && r.parent == q.parent
  }

  ghost predicate HasComposite(schema: Schema, r: Reference) {
    exists q :: q in schema && SameColumns(r, q) && q.composite != NoComposite
  }

  /** Beside every older key that acts stands a composite key on the same columns. */
  ghost predicate Covered(schema: Schema) {
    forall r :: r in schema && Acts(r) ==> HasComposite(schema, r)
  }

  /** No row refers to another tenant's row through an older key that acts. */
  ghost predicate NoCrossing(schema: Schema, store: Store) {
    forall loc, r :: loc in store && r in schema && r.child == loc.0 && Acts(r) && RefOf(store[loc], r.column).Some? ==>
      var p := (r.parent, RefOf(store[loc], r.column).value);
      p in store && store[p].tenant == store[loc].tenant
  }

  lemma CoveredHasNoCrossing(schema: Schema, store: Store)
    requires Covered(schema) && KeysHold(schema, store)
    ensures NoCrossing(schema, store)
  {
    forall loc, r | loc in store && r in schema && r.child == loc.0 && Acts(r) && RefOf(store[loc], r.column).Some?
      ensures var p := (r.parent, RefOf(store[loc], r.column).value);
        p in store && store[p].tenant == store[loc].tenant
    {
      var q :| q in schema && SameColumns(r, q) && q.composite != NoComposite;
      assert ParentFound(q, store, store[loc]);
    }
  }

  /** Cascades start in one tenant and, where no reference crosses, never leave it. */
  lemma {:induction false} CascadeStaysInTenant(schema: Schema, store: Store, gone: set<Loc>, t: Tenant)
    requires NoCrossing(schema, store) && gone <= store.Keys
    requires forall loc :: loc in gone ==> store[loc].tenant == t
    ensures forall loc :: loc in Cascaded(schema, store, gone) ==> store[loc].tenant == t
    decreases store.Keys - gone
  {
    var more := CascadeOnce(schema, store, gone);
    if more != gone {
      forall loc | loc in more ensures store[loc].tenant == t {
        if loc !in gone {
          var r :| r in schema && r.legacy == Cascade && PointsInto(r, loc, store[loc], gone);
          assert Acts(r);
        }
      }
      assert store.Keys - more < store.Keys - gone by {
        var loc :| loc in more && loc !in gone;
        assert loc in store.Keys - gone && loc !in store.Keys - more;
      }
      CascadeStaysInTenant(schema, store, more, t);
    }
  }

  /** Then a delete by tenant t removes and clears only rows of t. */
  lemma DeleteStaysInTenant(schema: Schema, session: Session, store: Store, locs: set<Loc>)
    requires NoCrossing(schema, store)
    ensures var gone := Cascaded(schema, store, TargetsOf(store, session, locs));
      && (forall loc :: loc in gone ==> Passes(session, store[loc].tenant))
      && (forall loc, c :: loc in store && Cleared(schema, store, gone, loc, c) ==>
            Passes(session, store[loc].tenant))
  {
    var targets := TargetsOf(store, session, locs);
    var gone := Cascaded(schema, store, targets);
    if session.Some? {
      CascadeStaysInTenant(schema, store, targets, session.value);
    } else {
      CascadeOfNothing(schema, store);
      assert targets == {};
    }
    forall loc, c | loc in store && Cleared(schema, store, gone, loc, c)
      ensures Passes(session, store[loc].tenant)
    {
      var r :| r in schema && r.column == c && PointsInto(r, loc, store[loc], gone)
        && (r.legacy == LegacySetNull
            || (r.composite == SetNullColumn
                && store[(r.parent, RefOf(store[loc], c).value)].tenant == store[loc].tenant));
      assert r.legacy == LegacySetNull ==> Acts(r);
    }
  }

  lemma CascadeOfNothing(schema: Schema, store: Store)
    ensures Cascaded(schema, store, {}) == {}
  {
    assert CascadeOnce(schema, store, {}) == {};
  }

  lemma UnclearedRowStays(schema: Schema, store: Store, gone: set<Loc>, loc: Loc)
    requires loc in store && gone <= store.Keys
    requires forall c :: !Cleared(schema, store, gone, loc, c)
    ensures ClearRow(schema, store, gone, loc) == store[loc]
  {
    assert ClearRow(schema, store, gone, loc).refs == store[loc].refs;
  }

  lemma ClearedColumn(schema: Schema, store: Store, gone: set<Loc>, loc: Loc, c: Column)
    requires gone <= store.Keys && loc in store
    ensures RefOf(ClearRow(schema, store, gone, loc), c) ==
            if Cleared(schema, store, gone, loc, c) then None else RefOf(store[loc], c)
  {
  }

  // ---------------------------------------------------------------- every step keeps the keys

  /** Writing one row with its parents in place. */
  lemma WriteKeepsKeys(schema: Schema, store: Store, loc: Loc, row: Row)
    requires KeysHold(schema, store)
    requires loc in store ==> store[loc].tenant == row.tenant
    requires ParentsExist(schema, store[loc := row], loc.0, row)
    ensures KeysHold(schema, store[loc := row])
  {
    var next := store[loc := row];
    forall l | l in next ensures ParentsExist(schema, next, l.0, next[l]) {
      if l != loc {
        assert ParentsExist(schema, store, l.0, store[l]);
        forall r | r in schema && r.child == l.0 ensures ParentFound(r, next, next[l]) {
          assert ParentFound(r, store, store[l]);
        }
      }
    }
  }

  lemma DeleteKeepsKeys(schema: Schema, store: Store, gone: set<Loc>)
    requires KeysHold(schema, store) && gone <= store.Keys
    requires var left := Survivors(schema, store, gone);
      !exists loc, r :: loc in left && r in schema && Blocks(r, store, gone, loc, left[loc])
    ensures KeysHold(schema, Survivors(schema, store, gone))
  {
    var left := Survivors(schema, store, gone);
    forall loc | loc in left ensures ParentsExist(schema, left, loc.0, left[loc]) {
      forall r | r in schema && r.child == loc.0 ensures ParentFound(r, left, left[loc]) {
        if RefOf(left[loc], r.column).Some? {
          assert ParentsExist(schema, store, loc.0, store[loc]);
          assert ParentFound(r, store, store[loc]);
          assert RefOf(left[loc], r.column) == RefOf(store[loc], r.column);
          assert !Blocks(r, store, gone, loc, left[loc]);
        }
      }
    }
  }

  /** Whatever the schema: one statement by any session keeps every key. */
  lemma StepKeepsKeys(schema: Schema, store: Store, step: Step)
    requires KeysHold(schema, store)
    ensures KeysHold(schema, Next(schema, store, step))
  {
    hide KeysHold, ParentsExist;
    if Execute(schema, step.session, store, step.op).Ok? {
      match step.op {
        case Delete(locs) => DeleteKeepsKeys(schema, store, Cascaded(schema, store, TargetsOf(store, step.session, locs)));
        case Insert(loc, tenant, refs, payload) =>
          WriteKeepsKeys(schema, store, loc, Row(if tenant.Some? then tenant.value else step.session.value, refs, payload));
        case Update(loc, row) =>
          if loc in store && Passes(step.session, store[loc].tenant) {
            WriteKeepsKeys(schema, store, loc, row);
          }
      }
    }
  }

  /** The two ways to fail, as DeleteRows finds them. */
  ghost predicate Fails(schema: Schema, store: Store, gone: set<Loc>)
    requires gone <= store.Keys
  {
    var left := Survivors(schema, store, gone);
    NullsATenant(schema, store, gone)
    || exists loc, r :: loc in left && r in schema && Blocks(r, store, gone, loc, left[loc])
  }

  // ---------------------------------------------------------------- isolation, and exactly when

  /** Rows of other tenants are the same before and after. */
  ghost predicate OthersUntouched(session: Session, before: Store, after: Store) {
    forall t :: session != Some(t) ==> Visible(after, Some(t)) == Visible(before, Some(t))
  }

  lemma DeleteIsolates(schema: Schema, session: Session, store: Store, locs: set<Loc>)
    requires NoCrossing(schema, store)
    requires DeleteRows(schema, session, store, Delete(locs)).Ok?
    ensures OthersUntouched(session, store, DeleteRows(schema, session, store, Delete(locs)).value)
  {
    var gone := Cascaded(schema, store, TargetsOf(store, session, locs));
    var after := Survivors(schema, store, gone);
    DeleteStaysInTenant(schema, session, store, locs);
    forall t | session != Some(t) ensures Visible(after, Some(t)) == Visible(store, Some(t)) {
      forall loc | loc in store && store[loc].tenant == t ensures loc in after && after[loc] == store[loc] {
        UnclearedRowStays(schema, store, gone, loc);
      }
    }
  }

  /** One statement leaves every row of every other tenant as it was, and adds none, if no older key
    * that acts crosses tenants. */
  lemma StepIsolates(schema: Schema, store: Store, step: Step)
    requires NoCrossing(schema, store)
    ensures OthersUntouched(step.session, store, Next(schema, store, step))
  {
    hide NoCrossing, ParentsExist, DeleteRows;
    if step.op.Delete? && Execute(schema, step.session, store, step.op).Ok? {
      hide OthersUntouched;
      DeleteIsolates(schema, step.session, store, step.op.locs);
    }
  }

  /** What a schema would have to promise: no statement of one tenant, run on a store whose keys hold,
    * touches another tenant's rows. */
  ghost predicate Isolates(schema: Schema) {
    forall store, step: Step :: KeysHold(schema, store) ==> OthersUntouched(step.session, store, Next(schema, store, step))
  }

  lemma CoveredIsolates(schema: Schema, store: Store, step: Step)
    requires Covered(schema) && KeysHold(schema, store)
    ensures OthersUntouched(step.session, store, Next(schema, store, step))
  {
    CoveredHasNoCrossing(schema, store);
    StepIsolates(schema, store, step);
  }

  /** A schema isolates tenants if and only if every older key with ON DELETE CASCADE or SET NULL has a
    * composite key beside it. */
  lemma IsolatesIffCovered(schema: Schema)
    ensures Isolates(schema) <==> Covered(schema)
  {
    hide KeysHold, OthersUntouched, Next, HasComposite, CrossingStore;
    if Covered(schema) {
      forall store, step: Step | KeysHold(schema, store)
        ensures OthersUntouched(step.session, store, Next(schema, store, step))
      {
        CoveredIsolates(schema, store, step);
      }
    } else {
      var r :| r in schema && Acts(r) && !HasComposite(schema, r);
      CrossingStoreHolds(schema, r);
      CrossingStoreLeaks(schema, r);
    }
  }

  const ALICE: Tenant := "alice"
  const BOB: Tenant := "bob"

  /** The parents of a child row whose column names "parent". */
  function CrossingParents(schema: Schema, r: Reference): set<Loc> {
    set q | q in schema && q.child == r.child && q.column == r.column :: (q.parent, "parent")
  }

  /** Bob's row refers through r to Alice's; every other key on that column finds a parent of Bob's. */
  function CrossingStore(schema: Schema, r: Reference): Store {
    (map loc | loc in CrossingParents(schema, r) :: Row(if loc.0 == r.parent then ALICE else BOB, map[], ""))
    [(r.child, "child") := Row(BOB, map[r.column := Some("parent")], "")]
  }

  lemma CrossingStoreHolds(schema: Schema, r: Reference)
    requires r in schema && !HasComposite(schema, r)
    ensures KeysHold(schema, CrossingStore(schema, r))
  {
    var store := CrossingStore(schema, r);
    var c := (r.child, "child");
    forall loc, q | loc in store && q in schema && q.child == loc.0 ensures ParentFound(q, store, store[loc]) {
      if loc == c && q.column == r.column {
        assert (q.parent, "parent") in store;
        assert q.composite != NoComposite ==> !SameColumns(r, q);
      }
    }
  }

  /** The delete of Alice's row goes through. */
  lemma CrossingDelete(schema: Schema, r: Reference, gone: set<Loc>)
    requires r in schema && Acts(r) && !HasComposite(schema, r)
    requires var store := CrossingStore(schema, r);
      && gone <= store.Keys && (r.parent, "parent") in gone
      && gone <= {(r.parent, "parent"), (r.child, "child")}
      && CascadeOnce(schema, store, gone) == gone
    ensures !Fails(schema, CrossingStore(schema, r), gone)
    ensures (r.child, "child") in gone
            || RefOf(ClearRow(schema, CrossingStore(schema, r), gone, (r.child, "child")), r.column) == None
  {
    var store := CrossingStore(schema, r);
    var p, c := (r.parent, "parent"), (r.child, "child");
    var left := Survivors(schema, store, gone);
    assert PointsInto(r, c, store[c], gone);
    assert r.legacy == Cascade ==> c in CascadeOnce(schema, store, gone);
    assert c in gone || Cleared(schema, store, gone, c, r.column);
    hide CascadeOnce, Cleared, Acts;
    ClearedColumn(schema, store, gone, c, r.column);
    forall loc, q | loc in left && q in schema ensures !Blocks(q, store, gone, loc, left[loc]) {
      ClearedColumn(schema, store, gone, loc, q.column);
    }
    assert !NullsATenant(schema, store, gone);
  }

  /** When Alice deletes her row, Bob's is deleted or changed. */
  lemma CrossingStoreLeaks(schema: Schema, r: Reference)
    requires r in schema && Acts(r) && !HasComposite(schema, r)
    ensures var store, step := CrossingStore(schema, r), Step(Some(ALICE), Delete({(r.parent, "parent")}));
      !OthersUntouched(step.session, store, Next(schema, store, step))
  {
    var store := CrossingStore(schema, r);
    var p, c := (r.parent, "parent"), (r.child, "child");
    assert p in store && p != c && store[p].tenant == ALICE by { assert p in CrossingParents(schema, r); }
    assert TargetsOf(store, Some(ALICE), {p}) == {p};
    var gone := Cascaded(schema, store, {p});
    CrossingCascade(schema, r, {p});
    CrossingDelete(schema, r, gone);
    hide CascadeOnce, Cleared, CrossingParents, Blocks, NullsATenant;
    var left := Survivors(schema, store, gone);
    assert Next(schema, store, Step(Some(ALICE), Delete({p}))) == left;
    assert c in Visible(store, Some(BOB));
    assert c in Visible(left, Some(BOB)) ==> Visible(left, Some(BOB))[c] != Visible(store, Some(BOB))[c];
  }

  /** Only Bob's row has a reference, so a cascade takes no more than the two rows. */
  lemma {:induction false} CrossingCascade(schema: Schema, r: Reference, gone: set<Loc>)
    requires var store := CrossingStore(schema, r);
      gone <= store.Keys && gone <= {(r.parent, "parent"), (r.child, "child")}
    ensures Cascaded(schema, CrossingStore(schema, r), gone) <= {(r.parent, "parent"), (r.child, "child")}
    decreases CrossingStore(schema, r).Keys - gone
  {
    var store := CrossingStore(schema, r);
    var more := CascadeOnce(schema, store, gone);
    if more != gone {
      assert store.Keys - more < store.Keys - gone by {
        var loc :| loc in more && loc !in gone;
        assert loc in store.Keys - gone && loc !in store.Keys - more;
      }
      CrossingCascade(schema, r, more);
    }
  }

  /** Why the composite keys matter: in a store that violates them, an older ON DELETE CASCADE takes
    * another tenant's row with it. */
  lemma WithoutCompositeKeysCascadesLeak(t: Tenant, other: Tenant, parent: string, child: string)
    requires t != other
    ensures var r := Reference(Table.Documents, Column.KnowledgeBaseId, Table.KnowledgeBases, Cascade, NoAction);
      var p, c := (Table.KnowledgeBases, parent), (Table.Documents, child);
      var store: Store := map[p := Row(t, map[], ""), c := Row(other, map[Column.KnowledgeBaseId := Some(parent)], "")];
      && !KeysHold({r}, store)
      && Next({r}, store, Step(Some(t), Delete({p}))) == map[]
  {
    var r := Reference(Table.Documents, Column.KnowledgeBaseId, Table.KnowledgeBases, Cascade, NoAction);
    var p, c := (Table.KnowledgeBases, parent), (Table.Documents, child);
    var store: Store := map[p := Row(t, map[], ""), c := Row(other, map[Column.KnowledgeBaseId := Some(parent)], "")];
    assert RefOf(store[c], Column.KnowledgeBaseId) == Some(parent);
    assert !ParentFound(r, store, store[c]);
    assert TargetsOf(store, Some(t), {p}) == {p};
    assert PointsInto(r, c, store[c], {p});
    assert CascadeOnce({r}, store, {p}) == {p, c};
    assert CascadeOnce({r}, store, {p, c}) == {p, c};
    assert Cascaded({r}, store, {p, c}) == {p, c};
    assert Cascaded({r}, store, {p}) == {p, c};
    assert Survivors({r}, store, {p, c}) == map[];
  }

  // ---------------------------------------------------------------- how it happens

  /** From an empty store: Bob adds a user, Alice adds an execution in that user's
    * name, and when Bob deletes the user, Alice's row is gone. */
  lemma DeletingAUserReachesOtherTenants(user: string, execution: string)
    ensures var r := Reference(Table.PluginExecutions, Column.UserId, Table.Users, Cascade, NoComposite);
      var u, e := (Table.Users, user), (Table.PluginExecutions, execution);
      var added := Step(Some(BOB), Insert(u, None, map[], ""));
      var named := Step(Some(ALICE), Insert(e, None, map[Column.UserId := Some(user)], ""));
      var deleted := Step(Some(BOB), Delete({u}));
      && e in Visible(Run({r}, map[], [added, named]), Some(ALICE))
      && Run({r}, map[], [added, named, deleted]) == map[]
  {
    var r := Reference(Table.PluginExecutions, Column.UserId, Table.Users, Cascade, NoComposite);
    var u, e := (Table.Users, user), (Table.PluginExecutions, execution);
    var added := Step(Some(BOB), Insert(u, None, map[], ""));
    var named := Step(Some(ALICE), Insert(e, None, map[Column.UserId := Some(user)], ""));
    var deleted := Step(Some(BOB), Delete({u}));
    var s1: Store := map[u := Row(BOB, map[], "")];
    var s2: Store := s1[e := Row(ALICE, map[Column.UserId := Some(user)], "")];
    assert Next({r}, map[], added) == s1;
    assert Next({r}, s1, named) == s2;
    DeleteTakesBoth(s2, r, u, e);
    assert [added, named, deleted] == [added] + ([named] + ([deleted] + []));
    assert [added, named] == [added] + ([named] + []);
    RunFirst({r}, map[], added, [named] + ([deleted] + []));
    RunFirst({r}, map[], added, [named] + []);
    RunFirst({r}, s1, named, [deleted] + []);
    RunFirst({r}, s1, named, []);
    RunFirst({r}, s2, deleted, []);
  }

  lemma DeleteTakesBoth(store: Store, r: Reference, u: Loc, e: Loc)
    requires r == Reference(Table.PluginExecutions, Column.UserId, Table.Users, Cascade, NoComposite)
    requires u.0 == Table.Users && e.0 == Table.PluginExecutions
    requires store == map[u := Row(BOB, map[], ""), e := Row(ALICE, map[Column.UserId := Some(u.1)], "")]
    ensures Next({r}, store, Step(Some(BOB), Delete({u}))) == map[]
  {
    assert TargetsOf(store, Some(BOB), {u}) == {u};
    assert PointsInto(r, e, store[e], {u});
    assert CascadeOnce({r}, store, {u}) == {u, e};
    assert CascadeOnce({r}, store, {u, e}) == {u, e};
    assert Cascaded({r}, store, {u, e}) == {u, e};
    assert Cascaded({r}, store, {u}) == {u, e};
    assert Survivors({r}, store, {u, e}) == map[];
  }

  lemma RunFirst(schema: Schema, store: Store, step: Step, rest: seq<Step>)
    ensures Run(schema, store, [step] + rest) == Run(schema, Next(schema, store, step), rest)
  {
    assert ([step] + rest)[1..] == rest;
  }

  // ---------------------------------------------------------------- whole histories

  /** Over every history every key holds; and, in a covered schema, a tenant's rows are exactly as its
    * own statements left them. */
  lemma {:induction false} HistoryIsolates(schema: Schema, store: Store, steps: seq<Step>, t: Tenant)
    requires KeysHold(schema, store)
    ensures KeysHold(schema, Run(schema, store, steps))
    ensures Covered(schema) && (forall i :: 0 <= i < |steps| ==> steps[i].session != Some(t)) ==>
              Visible(Run(schema, store, steps), Some(t)) == Visible(store, Some(t))
    decreases |steps|
  {
    if steps != [] {
      StepKeepsKeys(schema, store, steps[0]);
      if Covered(schema) {
        CoveredHasNoCrossing(schema, store);
        StepIsolates(schema, store, steps[0]);
      }
      HistoryIsolates(schema, Next(schema, store, steps[0]), steps[1..], t);
    }
  }

  /** The step inserted this row for the session's own tenant. */
  predicate Inserts(step: Step, loc: Loc, t: Tenant) {
    step.op.Insert? && step.op.loc == loc && step.session == Some(t)
    && (step.op.tenant == None || step.op.tenant == Some(t))
  }

  /** Whatever the schema, a row belongs for ever to the tenant whose session inserted it: an omitted
    * tenant becomes the session's, a given one must be the session's, and no statement changes it. */
  lemma {:induction false} RowsBelongToTheirInserter(schema: Schema, store: Store, steps: seq<Step>, loc: Loc)
    requires loc in Run(schema, store, steps)
    ensures var t := Run(schema, store, steps)[loc].tenant;
      || (loc in store && store[loc].tenant == t)
      || exists i :: 0 <= i < |steps| && Inserts(steps[i], loc, t)
    decreases |steps|
  {
    if steps != [] {
      var next := Next(schema, store, steps[0]);
      var t := Run(schema, store, steps)[loc].tenant;
      RowsBelongToTheirInserter(schema, next, steps[1..], loc);
      if i :| 0 <= i < |steps| - 1 && Inserts(steps[1..][i], loc, t) {
        assert Inserts(steps[i + 1], loc, t);
      } else {
        assert loc in next && next[loc].tenant == t;
        assert (loc in store && store[loc].tenant == t) || Inserts(steps[0], loc, t);
      }
    }
  }

  /** An insert that omits the tenant gets the session's, or fails. */
  lemma OmittedTenantIsTheSessions(schema: Schema, session: Session, store: Store, op: Op)
    requires op.Insert? && op.tenant.None?
    ensures var r := Execute(schema, session, store, op);
      r.Ok? ==> session.Some? && op.loc in r.value && r.value[op.loc].tenant == session.value
                && r.value - {op.loc} == store
    ensures session.None? ==> Execute(schema, session, store, op) == Err(TenantIsNull)
  {
  }

  /** Without a session tenant no statement changes anything. */
  lemma NoSessionNoWrites(schema: Schema, store: Store, op: Op)
    ensures Next(schema, store, Step(None, op)) == store
  {
    if op.Delete? {
      assert TargetsOf(store, None, op.locs) == {};
      CascadeOfNothing(schema, store);
      forall loc | loc in store ensures ClearRow(schema, store, {}, loc) == store[loc] {
        UnclearedRowStays(schema, store, {}, loc);
      }
      assert Survivors(schema, store, {}) == store;
    }
  }

  // ---------------------------------------------------------------- deleting

  predicate IsKey(r: Reference) {
    r.legacy != Absent || r.composite != NoComposite
  }

  /** Some key of this column points to a row that goes. */
  ghost predicate LosesParent(schema: Schema, gone: set<Loc>, loc: Loc, row: Row, c: Column) {
    exists r :: r in schema && IsKey(r) && r.column == c && PointsInto(r, loc, row, gone)
  }

  /** A row that blocks nothing has lost exactly the references whose parents go. */
  lemma SurvivorColumn(schema: Schema, store: Store, gone: set<Loc>, loc: Loc, c: Column)
    requires gone <= store.Keys && loc in store && ParentsExist(schema, store, loc.0, store[loc])
    requires forall r :: r in schema ==> IsKey(r) && !Blocks(r, store, gone, loc, ClearRow(schema, store, gone, loc))
    ensures RefOf(ClearRow(schema, store, gone, loc), c) ==
            if LosesParent(schema, gone, loc, store[loc], c) then None else RefOf(store[loc], c)
  {
    hide ClearRow;
    ClearedColumn(schema, store, gone, loc, c);
    SameTenant(schema, store, gone, loc);
    if r :| r in schema && r.column == c && PointsInto(r, loc, store[loc], gone) {
      assert ParentFound(r, store, store[loc]);
      assert !Blocks(r, store, gone, loc, ClearRow(schema, store, gone, loc));
    }
  }

  /** After a delete every surviving row keeps its tenant, its payload and every reference that did not
    * point to a deleted row. */
  lemma DeleteClearsOnlyReferences(schema: Schema, session: Session, store: Store, locs: set<Loc>, loc: Loc, c: Column)
    requires KeysHold(schema, store) && forall r :: r in schema ==> IsKey(r)
    requires Execute(schema, session, store, Delete(locs)).Ok?
    ensures var after := Execute(schema, session, store, Delete(locs)).value;
      var gone := Cascaded(schema, store, TargetsOf(store, session, locs));
      && after.Keys == store.Keys - gone
      && (loc in after ==>
            && after[loc].tenant == store[loc].tenant && after[loc].payload == store[loc].payload
            && RefOf(after[loc], c) == if LosesParent(schema, gone, loc, store[loc], c) then None else RefOf(store[loc], c))
  {
    hide Cascaded, TargetsOf, LosesParent, IsKey, RefOf, ParentsExist, Blocks, NullsATenant;
    var gone := Cascaded(schema, store, TargetsOf(store, session, locs));
    var after := Survivors(schema, store, gone);
    if loc in after {
      assert forall r :: r in schema ==> !Blocks(r, store, gone, loc, after[loc]);
      SurvivorColumn(schema, store, gone, loc, c);
    }
  }

  /** A surviving row keeps the delete from happening: some key of it points to a row that goes, and
    * no SET NULL clears that column. */
  ghost predicate Obstructs(schema: Schema, store: Store, gone: set<Loc>, loc: Loc, r: Reference)
    requires gone <= store.Keys
  {
    loc in store && loc !in gone && r in schema && PointsInto(r, loc, store[loc], gone)
    && (r.composite == SetNullBoth || !Cleared(schema, store, gone, loc, r.column))
  }

  ghost predicate Obstructed(schema: Schema, store: Store, gone: set<Loc>)
    requires gone <= store.Keys
  {
    exists loc, r :: Obstructs(schema, store, gone, loc, r)
  }

  lemma ObstructionFails(schema: Schema, store: Store, gone: set<Loc>, loc: Loc, r: Reference)
    requires KeysHold(schema, store) && gone <= store.Keys && IsKey(r) && Obstructs(schema, store, gone, loc, r)
    ensures Fails(schema, store, gone)
  {
    hide Cleared, ClearRow;
    var left := Survivors(schema, store, gone);
    assert ParentsExist(schema, store, loc.0, store[loc]) && ParentFound(r, store, store[loc]);
    if r.composite != SetNullBoth {
      ClearedColumn(schema, store, gone, loc, r.column);
      SameTenant(schema, store, gone, loc);
      assert Blocks(r, store, gone, loc, left[loc]);
    }
  }

  lemma SameTenant(schema: Schema, store: Store, gone: set<Loc>, loc: Loc)
    requires gone <= store.Keys && loc in store
    ensures ClearRow(schema, store, gone, loc).tenant == store[loc].tenant
  {
  }

  lemma FailureObstructs(schema: Schema, store: Store, gone: set<Loc>)
    requires gone <= store.Keys && Fails(schema, store, gone)
    ensures Obstructed(schema, store, gone)
  {
    hide Cleared, ClearRow;
    var left := Survivors(schema, store, gone);
    if NullsATenant(schema, store, gone) {
      var loc, r :| loc in store && loc !in gone && r in schema && r.composite == SetNullBoth
        && PointsInto(r, loc, store[loc], gone)
        && store[(r.parent, RefOf(store[loc], r.column).value)].tenant == store[loc].tenant;
      assert Obstructs(schema, store, gone, loc, r);
    } else {
      var loc, r :| loc in left && r in schema && Blocks(r, store, gone, loc, left[loc]);
      ClearedColumn(schema, store, gone, loc, r.column);
      assert Obstructs(schema, store, gone, loc, r);
    }
  }

  /** Exactly when a delete goes through: nothing obstructs it. */
  lemma DeleteSucceedsIff(schema: Schema, session: Session, store: Store, locs: set<Loc>)
    requires KeysHold(schema, store) && forall r :: r in schema ==> IsKey(r)
    ensures Execute(schema, session, store, Delete(locs)).Ok? <==>
            !Obstructed(schema, store, Cascaded(schema, store, TargetsOf(store, session, locs)))
  {
    var gone := Cascaded(schema, store, TargetsOf(store, session, locs));
    assert Execute(schema, session, store, Delete(locs)).Ok? <==> !Fails(schema, store, gone);
    hide Fails, Execute, Cascaded, TargetsOf, KeysHold, IsKey;
    if Fails(schema, store, gone) {
      FailureObstructs(schema, store, gone);
    } else if Obstructed(schema, store, gone) {
      var loc, r :| Obstructs(schema, store, gone, loc, r);
      ObstructionFails(schema, store, gone, loc, r);
    }
  }

  /** A surviving row refers, within its tenant, to a row that goes, through a SET NULL without a column
    * list. */
  ghost predicate NullsTenantOf(schema: Schema, store: Store, gone: set<Loc>, loc: Loc, r: Reference, v: string)
    requires gone <= store.Keys
  {
    loc in store && loc !in gone && r in schema && r.composite == SetNullBoth && r.child == loc.0
    && Refers(store[loc], r.column, v) && (r.parent, v) in gone && store[(r.parent, v)].tenant == store[loc].tenant
  }

  ghost predicate SomeTenantNulled(schema: Schema, store: Store, gone: set<Loc>)
    requires gone <= store.Keys
  {
    exists loc, k, v :: NullsTenantOf(schema, store, gone, loc, k, v)
  }

  lemma NullsATenantIs(schema: Schema, store: Store, gone: set<Loc>)
    requires gone <= store.Keys
    ensures NullsATenant(schema, store, gone) <==> SomeTenantNulled(schema, store, gone)
  {
    if NullsATenant(schema, store, gone) {
      var loc, r :| loc in store && loc !in gone && r in schema && r.composite == SetNullBoth
        && PointsInto(r, loc, store[loc], gone)
        && store[(r.parent, RefOf(store[loc], r.column).value)].tenant == store[loc].tenant;
      assert NullsTenantOf(schema, store, gone, loc, r, RefOf(store[loc], r.column).value);
    }
    if SomeTenantNulled(schema, store, gone) {
      var loc, r, v :| NullsTenantOf(schema, store, gone, loc, r, v);
      assert RefOf(store[loc], r.column) == Some(v) && PointsInto(r, loc, store[loc], gone);
    }
  }

  /** Which error a delete fails with. */
  lemma DeleteFailsWith(schema: Schema, session: Session, store: Store, locs: set<Loc>)
    ensures var r, gone := Execute(schema, session, store, Delete(locs)), Cascaded(schema, store, TargetsOf(store, session, locs));
      r.Err? ==> r.error == if SomeTenantNulled(schema, store, gone) then TenantIsNull else StillReferenced
  {
    NullsATenantIs(schema, store, Cascaded(schema, store, TargetsOf(store, session, locs)));
  }

  function OwnerKey(action: CompositeAction): Reference {
    Reference(Table.KnowledgeBases, Column.OwnerId, Table.Users, Absent, action)
  }

  /** A row of another table than knowledge bases obstructs the delete. */
  ghost predicate ObstructedElsewhere(schema: Schema, store: Store, gone: set<Loc>)
    requires gone <= store.Keys
  {
    exists loc: Loc, r :: loc.0 != Table.KnowledgeBases && Obstructs(schema, store, gone, loc, r)
  }

  /** Deleting the owner of a knowledge base, in any store and any schema where the owner is the only
    * reference of knowledge bases.  With SET NULL (owner_id) the delete goes through unless a row of
    * another table obstructs it, and then the knowledge base survives with nothing but its owner
    * cleared; with either other clause the delete fails. */
  lemma OwnerDeletion(schema: Schema, session: Session, store: Store, user: string, kb: string, action: CompositeAction)
    requires KeysHold(schema, store) && action != NoComposite && OwnerKey(action) in schema
    requires forall r :: r in schema ==> IsKey(r) && (r.child == Table.KnowledgeBases ==> r == OwnerKey(action))
    requires var u, k := (Table.Users, user), (Table.KnowledgeBases, kb);
      && u in store && Passes(session, store[u].tenant)
      && k in store && RefOf(store[k], Column.OwnerId) == Some(user)
    ensures var u, k := (Table.Users, user), (Table.KnowledgeBases, kb);
      var r := Execute(schema, session, store, Delete({u}));
      && (r.Ok? ==>
            && action == SetNullColumn && u !in r.value && k in r.value
            && r.value[k] == store[k].(refs := store[k].refs[Column.OwnerId := None]))
      && (action == SetNullColumn ==>
            (r.Err? <==> ObstructedElsewhere(schema, store, Cascaded(schema, store, {u}))))
  {
    var u, k := (Table.Users, user), (Table.KnowledgeBases, kb);
    var owner := OwnerKey(action);
    assert TargetsOf(store, session, {u}) == {u};
    var gone := Cascaded(schema, store, {u});
    KnowledgeBasesStay(schema, store, {u}, action);
    assert ParentFound(owner, store, store[k]);
    assert PointsInto(owner, k, store[k], gone);
    DeleteSucceedsIff(schema, session, store, {u});
    if action != SetNullColumn {
      assert !Cleared(schema, store, gone, k, Column.OwnerId);
      assert Obstructs(schema, store, gone, k, owner);
      assert Obstructed(schema, store, gone);
    } else {
      OwnerIsCleared(schema, store, gone, k);
      if Obstructed(schema, store, gone) {
        var loc, q :| Obstructs(schema, store, gone, loc, q);
        if loc.0 == Table.KnowledgeBases { OwnerIsCleared(schema, store, gone, loc); }
      }
    }
  }

  /** A knowledge base whose owner goes loses its owner and nothing else. */
  lemma OwnerIsCleared(schema: Schema, store: Store, gone: set<Loc>, k: Loc)
    requires KeysHold(schema, store) && OwnerKey(SetNullColumn) in schema && gone <= store.Keys
    requires forall r :: r in schema && r.child == Table.KnowledgeBases ==> r == OwnerKey(SetNullColumn)
    requires k in store && k.0 == Table.KnowledgeBases
    requires PointsInto(OwnerKey(SetNullColumn), k, store[k], gone)
    ensures forall c :: Cleared(schema, store, gone, k, c) <==> c == Column.OwnerId
    ensures ClearRow(schema, store, gone, k) == store[k].(refs := store[k].refs[Column.OwnerId := None])
  {
    assert ParentsExist(schema, store, k.0, store[k]) && ParentFound(OwnerKey(SetNullColumn), store, store[k]);
    assert ClearRow(schema, store, gone, k).refs == store[k].refs[Column.OwnerId := None];
  }

  /** Nothing cascades to a knowledge base. */
  lemma {:induction false} KnowledgeBasesStay(schema: Schema, store: Store, gone: set<Loc>, action: CompositeAction)
    requires gone <= store.Keys && forall loc :: loc in gone ==> loc.0 != Table.KnowledgeBases
    requires forall r :: r in schema && r.child == Table.KnowledgeBases ==> r == OwnerKey(action)
    ensures forall loc :: loc in Cascaded(schema, store, gone) ==> loc.0 != Table.KnowledgeBases
    decreases store.Keys - gone
  {
    var more := CascadeOnce(schema, store, gone);
    if more != gone {
      assert store.Keys - more < store.Keys - gone by {
        var loc :| loc in more && loc !in gone;
        assert loc in store.Keys - gone && loc !in store.Keys - more;
      }
      KnowledgeBasesStay(schema, store, more, action);
    }
  }
}
