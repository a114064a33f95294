/**
  * The data step of migration 009: before composite foreign keys are validated, dangling references
  * in nullable columns are set to NULL, and dangling references in NOT NULL columns are reported,
  * all of them at once.
  */
module OrphanRepair {
  import opened Wrappers
  import opened TenantInventory

  type RowId = string
  type Loc = (Table, RowId)

  datatype Row = Row(tenant: string, values: map<Column, Option<string>>)

  /** All rows of all tables, by table and row id. */
  type Rows = map<Loc, Row>

  datatype Finding = Finding(fk: Fk, count: nat)

  /** Every NOT NULL column with dangling references, with its count. */
  datatype Error = NotNullOrphans(blocked: seq<Finding>)

  function Value(row: Row, c: Column): Option<string> {
    if c in row.values then row.values[c] else None
  }

  /** The NOT EXISTS subquery: some parent of the row's tenant carries the value. */
  predicate HasParent(db: Rows, fk: Fk, tenant: string, value: string) {
    exists p :: p in db && p.0 == fk.parent && db[p].tenant == tenant && Value(db[p], fk.parentColumn) == Some(value)
  }

  predicate Dangles(db: Rows, fk: Fk, loc: Loc)
    requires loc in db
  {
    loc.0 == fk.child && Value(db[loc], fk.childColumn).Some?
    && !HasParent(db, fk, db[loc].tenant, Value(db[loc], fk.childColumn).value)
  }

  function Orphans(db: Rows, fk: Fk): set<Loc> {
    set loc | loc in db && Dangles(db, fk, loc)
  }

  /** MATCH SIMPLE: the composite key holds when no non-null reference dangles. */
  predicate Holds(db: Rows, fk: Fk) {
    Orphans(db, fk) == {}
  }

  function SetNull(row: Row, c: Column): Row {
    row.(values := row.values[c := None])
  }

  /** UPDATE child SET column = NULL WHERE the reference dangles. */
  function NulledOut(db: Rows, fk: Fk): Rows {
    map loc | loc in db :: if Dangles(db, fk, loc) then SetNull(db[loc], fk.childColumn) else db[loc]
  }

  class Database {
    var rows: Rows
    const nullable: set<(Table, Column)>

    constructor (initial: Rows, nullable: set<(Table, Column)>)
      ensures rows == initial && this.nullable == nullable
    {
      rows := initial;
      this.nullable := nullable;
    }
  }

  // ---------------------------------------------------------------- specification

  /** Some nullable foreign key on column c finds the row dangling in the original data. */
  predicate Hit(db: Rows, fks: seq<Fk>, nullable: set<(Table, Column)>, loc: Loc, c: Column)
    requires loc in db
  {
    exists fk :: fk in fks && fk.childColumn == c && (fk.child, c) in nullable && Dangles(db, fk, loc)
  }

  /** The repaired data, described row by row from the original data: the hit references are NULL
    * and nothing else differs. */
  ghost predicate IsRepairOf(db: Rows, fks: seq<Fk>, nullable: set<(Table, Column)>, after: Rows) {
    && after.Keys == db.Keys
    && (forall loc :: loc in db ==> after[loc].tenant == db[loc].tenant)
    && (forall loc, c :: loc in db ==>
          (Value(after[loc], c) == if Hit(db, fks, nullable, loc, c) then None else Value(db[loc], c)))
  }

  /** The columns foreign keys point at are never themselves repaired, and no column carries two
    * foreign keys. */
  ghost predicate Independent(fks: seq<Fk>) {
    && (forall f, g :: f in fks && g in fks ==> !(f.parent == g.child && f.parentColumn == g.childColumn))
    && (forall i, j :: 0 <= i < j < |fks| ==>
          fks[i].child != fks[j].child || fks[i].childColumn != fks[j].childColumn)
  }

  function Findings(db: Rows, fks: seq<Fk>, nullable: set<(Table, Column)>, wanted: bool): seq<Finding> {
    if fks == [] then []
    else
      var before, fk := Findings(db, fks[..|fks| - 1], nullable, wanted), fks[|fks| - 1];
      var n := |Orphans(db, fk)|;
      if n > 0 && ((fk.child, fk.childColumn) in nullable) == wanted then before + [Finding(fk, n)] else before
  }

  lemma {:induction false} FindingsComplete(db: Rows, fks: seq<Fk>, nullable: set<(Table, Column)>, wanted: bool, f: Finding)
    ensures f in Findings(db, fks, nullable, wanted) <==>
            && f.fk in fks && ((f.fk.child, f.fk.childColumn) in nullable) == wanted
            && f.count == |Orphans(db, f.fk)| && f.count > 0
    decreases |fks|
  {
    if fks != [] {
      var init, last := fks[..|fks| - 1], fks[|fks| - 1];
      FindingsComplete(db, init, nullable, wanted, f);
      assert forall fk :: fk in fks <==> fk in init || fk == last;
    }
  }

  /** The migration's own list meets it. */
  lemma InventoryIsIndependent()
    ensures Independent(COMPOSITE_FKS)
  {
    hide FkAt, Rank;
    forall f, g | f in COMPOSITE_FKS && g in COMPOSITE_FKS
      ensures !(f.parent == g.child && f.parentColumn == g.childColumn)
    {
      var i :| 0 <= i < FK_COUNT && COMPOSITE_FKS[i] == f;
      var j :| 0 <= j < FK_COUNT && COMPOSITE_FKS[j] == g;
      IdsOnly(i);
      IdsOnly(j);
    }
    forall i, j | 0 <= i < j < FK_COUNT
      ensures FkAt(i).child != FkAt(j).child || FkAt(i).childColumn != FkAt(j).childColumn
    {
      SortedFar(i, j);
      SameRank(FkAt(i), FkAt(j));
    }
  }

  lemma SameRank(f: Fk, g: Fk)
    ensures f.child == g.child && f.childColumn == g.childColumn ==> Rank(f) == Rank(g)
  {
  }

  // ---------------------------------------------------------------- one statement at a time

  /** Repairs never move a parent, so whether a value has a parent is fixed. */
  lemma ParentsStay(db: Rows, fks: seq<Fk>, nullable: set<(Table, Column)>, after: Rows, fk: Fk, tenant: string, v: string)
    requires IsRepairOf(db, fks, nullable, after)
    requires forall g :: g in fks ==> !(fk.parent == g.child && fk.parentColumn == g.childColumn)
    ensures HasParent(after, fk, tenant, v) <==> HasParent(db, fk, tenant, v)
  {
    forall p | p in db && p.0 == fk.parent
      ensures Value(after[p], fk.parentColumn) == Value(db[p], fk.parentColumn)
    {
      assert !Hit(db, fks, nullable, p, fk.parentColumn);
    }
    if HasParent(db, fk, tenant, v) {
      var p :| p in db && p.0 == fk.parent && db[p].tenant == tenant && Value(db[p], fk.parentColumn) == Some(v);
      assert p in after && Value(after[p], fk.parentColumn) == Some(v);
    }
    if HasParent(after, fk, tenant, v) {
      var p :| p in after && p.0 == fk.parent && after[p].tenant == tenant && Value(after[p], fk.parentColumn) == Some(v);
      assert p in db && Value(db[p], fk.parentColumn) == Some(v);
    }
  }

  /** In partly repaired data a row dangles exactly if it did and was not hit. */
  lemma DanglesAfter(db: Rows, fks: seq<Fk>, nullable: set<(Table, Column)>, after: Rows, fk: Fk, loc: Loc)
    requires IsRepairOf(db, fks, nullable, after) && loc in db
    requires forall g :: g in fks ==> !(fk.parent == g.child && fk.parentColumn == g.childColumn)
    ensures Dangles(after, fk, loc) <==> Dangles(db, fk, loc) && !Hit(db, fks, nullable, loc, fk.childColumn)
  {
    if Value(db[loc], fk.childColumn).Some? {
      ParentsStay(db, fks, nullable, after, fk, db[loc].tenant, Value(db[loc], fk.childColumn).value);
    }
  }

  lemma OrphansLater(db: Rows, fks: seq<Fk>, i: nat, nullable: set<(Table, Column)>, after: Rows)
    requires Independent(fks) && i < |fks| && IsRepairOf(db, fks[..i], nullable, after)
    ensures Orphans(after, fks[i]) == Orphans(db, fks[i])
  {
    forall loc | loc in db ensures Dangles(after, fks[i], loc) <==> Dangles(db, fks[i], loc) {
      DanglesAfter(db, fks[..i], nullable, after, fks[i], loc);
    }
  }

  lemma RepairOfNothing(db: Rows, fks: seq<Fk>, nullable: set<(Table, Column)>)
    requires fks == []
    ensures IsRepairOf(db, fks, nullable, db)
  {
  }

  lemma NoOrphans(db: Rows, fk: Fk)
    ensures |Orphans(db, fk)| == 0 <==> Orphans(db, fk) == {}
  {
  }

  lemma RepairNoOp(db: Rows, fks: seq<Fk>, i: nat, nullable: set<(Table, Column)>, after: Rows)
    requires i < |fks| && IsRepairOf(db, fks[..i], nullable, after)
    requires Orphans(db, fks[i]) == {} || (fks[i].child, fks[i].childColumn) !in nullable
    ensures IsRepairOf(db, fks[..i + 1], nullable, after)
  {
    forall loc, c | loc in db ensures Hit(db, fks[..i + 1], nullable, loc, c) <==> Hit(db, fks[..i], nullable, loc, c) {
      HitLonger(db, fks, i, nullable, loc, c);
      assert Dangles(db, fks[i], loc) ==> loc in Orphans(db, fks[i]);
    }
  }

  lemma HitLonger(db: Rows, fks: seq<Fk>, i: nat, nullable: set<(Table, Column)>, loc: Loc, c: Column)
    requires i < |fks| && loc in db
    ensures Hit(db, fks[..i + 1], nullable, loc, c) <==>
            Hit(db, fks[..i], nullable, loc, c)
            || (fks[i].childColumn == c && (fks[i].child, c) in nullable && Dangles(db, fks[i], loc))
  {
    assert fks[..i + 1] == fks[..i] + [fks[i]];
  }

  lemma RepairStep(db: Rows, fks: seq<Fk>, i: nat, nullable: set<(Table, Column)>, after: Rows)
    requires Independent(fks) && i < |fks| && IsRepairOf(db, fks[..i], nullable, after)
    requires (fks[i].child, fks[i].childColumn) in nullable
    ensures IsRepairOf(db, fks[..i + 1], nullable, NulledOut(after, fks[i]))
  {
    var fk, next := fks[i], NulledOut(after, fks[i]);
    forall loc, c | loc in db
      ensures Value(next[loc], c) == if Hit(db, fks[..i + 1], nullable, loc, c) then None else Value(db[loc], c)
    {
      HitLonger(db, fks, i, nullable, loc, c);
      DanglesAfter(db, fks[..i], nullable, after, fk, loc);
    }
  }

  // ---------------------------------------------------------------- the repair

  /** _defuse_orphan_composite_fk_refs.  On an error the caller's transaction is rolled back. */
  method Defuse(db: Database, fks: seq<Fk>) returns (r: Result<seq<Finding>, Error>)
    requires Independent(fks)
    modifies db
    ensures IsRepairOf(old(db.rows), fks, db.nullable, db.rows)
    ensures r == var blocked := Findings(old(db.rows), fks, db.nullable, false);
                 if blocked == [] then Ok(Findings(old(db.rows), fks, db.nullable, true))
                 else Err(NotNullOrphans(blocked))
  {
    hide IsRepairOf, Independent, NulledOut, Orphans;
    RepairOfNothing(db.rows, fks[..0], db.nullable);
    var nulled: seq<Finding>, blocked: seq<Finding> := [], [];
    var i := 0;
    while i < |fks|
      invariant 0 <= i <= |fks|
      invariant IsRepairOf(old(db.rows), fks[..i], db.nullable, db.rows)
      invariant nulled == Findings(old(db.rows), fks[..i], db.nullable, true)
      invariant blocked == Findings(old(db.rows), fks[..i], db.nullable, false)
    {
      var fk := fks[i];
      assert fks[..i + 1][..i] == fks[..i];
      OrphansLater(old(db.rows), fks, i, db.nullable, db.rows);
      var isNullable := (fk.child, fk.childColumn) in db.nullable;
      var orphanCount := |Orphans(db.rows, fk)|;
      if orphanCount == 0 {
        NoOrphans(old(db.rows), fk);
        RepairNoOp(old(db.rows), fks, i, db.nullable, db.rows);
      } else if isNullable {
        RepairStep(old(db.rows), fks, i, db.nullable, db.rows);
        db.rows := NulledOut(db.rows, fk);
        nulled := nulled + [Finding(fk, orphanCount)];
      } else {
        RepairNoOp(old(db.rows), fks, i, db.nullable, db.rows);
        blocked := blocked + [Finding(fk, orphanCount)];
      }
      i := i + 1;
    }
    assert fks[..i] == fks;
    r := if blocked != [] then Err(NotNullOrphans(blocked)) else Ok(nulled);
  }

  // ---------------------------------------------------------------- what the repair achieves

  /** It raises exactly when some NOT NULL column dangles. */
  lemma RaisesIff(db: Rows, fks: seq<Fk>, nullable: set<(Table, Column)>)
    ensures Findings(db, fks, nullable, false) != [] <==>
            exists fk :: fk in fks && (fk.child, fk.childColumn) !in nullable && !Holds(db, fk)
  {
    var found := Findings(db, fks, nullable, false);
    if found != [] {
      FindingsComplete(db, fks, nullable, false, found[0]);
      assert found[0] in found;
      assert |Orphans(db, found[0].fk)| > 0;
      assert !Holds(db, found[0].fk);
    }
    if fk :| fk in fks && (fk.child, fk.childColumn) !in nullable && !Holds(db, fk) {
      FindingsComplete(db, fks, nullable, false, Finding(fk, |Orphans(db, fk)|));
      assert |Orphans(db, fk)| > 0;
    }
  }

  /** When it does not raise, all composite foreign keys hold at once. */
  lemma AllHoldAfterwards(db: Rows, fks: seq<Fk>, nullable: set<(Table, Column)>, after: Rows, fk: Fk)
    requires Independent(fks) && IsRepairOf(db, fks, nullable, after)
    requires Findings(db, fks, nullable, false) == [] && fk in fks
    ensures Holds(after, fk)
  {
    RaisesIff(db, fks, nullable);
    forall loc | loc in after ensures !Dangles(after, fk, loc) {
      DanglesAfter(db, fks, nullable, after, fk, loc);
      if Dangles(db, fk, loc) {
        assert loc in Orphans(db, fk);
        assert (fk.child, fk.childColumn) in nullable;
        assert Hit(db, fks, nullable, loc, fk.childColumn);
      }
    }
  }

  /** No row of the parent table has the tenant and the value. */
  ghost predicate NoParent(db: Rows, fk: Fk, tenant: string, v: string) {
    forall p :: p in db && p.0 == fk.parent && db[p].tenant == tenant ==> Value(db[p], fk.parentColumn) != Some(v)
  }

  /** The reference in column c of the row is a key's, the column may be NULL, and the row's tenant has
    * no parent with that value. */
  ghost predicate HasDanglingReference(db: Rows, fks: seq<Fk>, nullable: set<(Table, Column)>, loc: Loc, c: Column)
    requires loc in db
  {
    exists fk :: fk in fks && fk.child == loc.0 && fk.childColumn == c && (loc.0, c) in nullable
      && Value(db[loc], c).Some? && NoParent(db, fk, db[loc].tenant, Value(db[loc], c).value)
  }

  lemma DanglesIff(db: Rows, fk: Fk, loc: Loc)
    requires loc in db
    ensures Dangles(db, fk, loc) <==>
            loc.0 == fk.child && Value(db[loc], fk.childColumn).Some?
            && NoParent(db, fk, db[loc].tenant, Value(db[loc], fk.childColumn).value)
  {
    if Dangles(db, fk, loc) {
      var v := Value(db[loc], fk.childColumn).value;
      forall p | p in db && p.0 == fk.parent && db[p].tenant == db[loc].tenant
        ensures Value(db[p], fk.parentColumn) != Some(v)
      {
      }
    }
  }

  /** The repair clears the dangling references in nullable columns, all of them and no other value. */
  lemma ClearsDanglingReferences(db: Rows, fks: seq<Fk>, nullable: set<(Table, Column)>, after: Rows, loc: Loc, c: Column)
    requires IsRepairOf(db, fks, nullable, after) && loc in db
    ensures loc in after
    ensures HasDanglingReference(db, fks, nullable, loc, c) ==> Value(db[loc], c).Some? && Value(after[loc], c) == None
    ensures !HasDanglingReference(db, fks, nullable, loc, c) ==> Value(after[loc], c) == Value(db[loc], c)
  {
    forall fk ensures Dangles(db, fk, loc) <==>
            loc.0 == fk.child && Value(db[loc], fk.childColumn).Some?
            && NoParent(db, fk, db[loc].tenant, Value(db[loc], fk.childColumn).value) {
      DanglesIff(db, fk, loc);
    }
    hide Dangles, NoParent;
    assert Hit(db, fks, nullable, loc, c) <==> HasDanglingReference(db, fks, nullable, loc, c);
  }

  /** Two lists with the same foreign keys, in any order, repair to the same values. */
  lemma OrderDoesNotMatter(db: Rows, fks: seq<Fk>, gks: seq<Fk>, nullable: set<(Table, Column)>, after: Rows, after': Rows)
    requires forall fk :: fk in fks <==> fk in gks
    requires IsRepairOf(db, fks, nullable, after) && IsRepairOf(db, gks, nullable, after')
    ensures after.Keys == after'.Keys
    ensures forall loc, c :: loc in db ==>
              after[loc].tenant == after'[loc].tenant && Value(after[loc], c) == Value(after'[loc], c)
  {
    forall loc, c | loc in db
      ensures Hit(db, fks, nullable, loc, c) <==> Hit(db, gks, nullable, loc, c)
    {
    }
  }

  /** A second run finds no orphan and changes nothing. */
  lemma SecondRunIsIdle(db: Rows, fks: seq<Fk>, nullable: set<(Table, Column)>, after: Rows, again: Rows)
    requires Independent(fks) && IsRepairOf(db, fks, nullable, after)
    requires Findings(db, fks, nullable, false) == []
    requires IsRepairOf(after, fks, nullable, again)
    ensures Findings(after, fks, nullable, true) == [] && Findings(after, fks, nullable, false) == []
    ensures forall loc, c :: loc in db ==>
              again[loc].tenant == after[loc].tenant && Value(again[loc], c) == Value(after[loc], c)
  {
    forall fk | fk in fks ensures Orphans(after, fk) == {} {
      AllHoldAfterwards(db, fks, nullable, after, fk);
    }
    forall wanted: bool ensures Findings(after, fks, nullable, wanted) == [] {
      var found := Findings(after, fks, nullable, wanted);
      if found != [] {
        FindingsComplete(after, fks, nullable, wanted, found[0]);
      }
    }
    forall loc, c | loc in after ensures !Hit(after, fks, nullable, loc, c) {
      forall fk | fk in fks ensures !Dangles(after, fk, loc) {
        assert loc !in Orphans(after, fk);
      }
    }
  }
}
