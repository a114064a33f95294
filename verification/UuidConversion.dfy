/**
  * Migration r009_0003: tenants.id and every tenant_id column change from text to uuid.  Foreign
  * keys are snapshotted, dropped and restored around the change, and the tenant policies are
  * recreated with a cast of the session setting.
  */
module UuidConversion {
  import opened Wrappers

  // ---------------------------------------------------------------- uuid text forms

  /** 32 hexadecimal digits. */
  type Uuid = u: seq<nat> | |u| == 32 && forall i :: 0 <= i < 32 ==> u[i] < 16
    witness seq(32, i => 0)

  function HexValue(c: char): Option<nat> {
    if '0' <= c <= '9' then Some((c - '0') as nat)
    else if 'a' <= c <= 'f' then Some((c - 'a') as nat + 10)
    else if 'A' <= c <= 'F' then Some((c - 'A') as nat + 10)
    else None
  }

  function HexDigit(d: nat): (c: char)
    requires d < 16
    ensures HexValue(c) == Some(d) && c != '-' && c != '{'
  {
    if d < 10 then '0' + d as char else 'a' + (d - 10) as char
  }

  /** The digits from the i-th on: one hyphen may follow each group of four but the last. */
  function ParseFrom(s: string, i: nat): (r: Option<seq<nat>>)
    requires i <= 32
    ensures r.Some? ==> |r.value| == 32 - i && forall k :: 0 <= k < |r.value| ==> r.value[k] < 16
    decreases 32 - i
  {
    if i == 32 then (if s == "" then Some([]) else None)
    else if s == "" || HexValue(s[0]).None? then None
    else
      var j, rest := i + 1, s[1..];
      var tail := if j % 4 == 0 && j < 32 && rest != "" && rest[0] == '-' then rest[1..] else rest;
      var more := ParseFrom(tail, j);
      if more.None? then None else Some([HexValue(s[0]).value] + more.value)
  }

  /** text::uuid, which also accepts braces and capitals. */
  function Parse(s: string): Option<Uuid> {
    var inner := if |s| >= 2 && s[0] == '{' && s[|s| - 1] == '}' then s[1..|s| - 1] else s;
    var r := ParseFrom(inner, 0);
    if r.None? then None else var u: Uuid := r.value; Some(u)
  }

  function RenderFrom(u: Uuid, i: nat): (s: string)
    requires i <= 32
    ensures i < 32 ==> s != "" && s[0] == HexDigit(u[i])
    decreases 32 - i
  {
    if i == 32 then ""
    else [HexDigit(u[i])] + (if i + 1 in {8, 12, 16, 20} then "-" else "") + RenderFrom(u, i + 1)
  }

  /** uuid::text: lower case, 8-4-4-4-12. */
  function Render(u: Uuid): string {
    RenderFrom(u, 0)
  }

  /** One digit, with or without a hyphen behind it. */
  lemma ParseDigit(c: char, rest: string, i: nat, hyphen: bool)
    requires i < 32 && HexValue(c).Some?
    requires hyphen ==> (i + 1) % 4 == 0 && i + 1 < 32
    requires !hyphen && rest != "" ==> rest[0] != '-'
    ensures ParseFrom([c] + (if hyphen then "-" else "") + rest, i) ==
            var more := ParseFrom(rest, i + 1);
            if more.None? then None else Some([HexValue(c).value] + more.value)
  {
    hide HexValue;
    var s := [c] + (if hyphen then "-" else "") + rest;
    assert s[1..] == (if hyphen then "-" else "") + rest;
    assert hyphen ==> s[1..][1..] == rest;
  }

  lemma {:induction false} ParseRenderFrom(u: Uuid, i: nat)
    requires i <= 32
    ensures ParseFrom(RenderFrom(u, i), i) == Some(u[i..])
    decreases 32 - i
  {
    hide HexDigit, HexValue, ParseFrom;
    if i == 32 {
      EmptyParse();
      assert u[i..] == [];
    } else {
      ParseRenderFrom(u, i + 1);
      var rest := RenderFrom(u, i + 1);
      assert i + 1 == 32 ==> rest == "";
      ParseDigit(HexDigit(u[i]), rest, i, i + 1 in {8, 12, 16, 20});
      assert u[i..] == [u[i]] + u[i + 1..];
    }
  }

  lemma EmptyParse()
    ensures ParseFrom("", 32) == Some([])
  {
  }

  /** Casting the canonical text back gives the same uuid. */
  lemma ParseRender(u: Uuid)
    ensures Parse(Render(u)) == Some(u)
  {
    ParseRenderFrom(u, 0);
    assert u[0..] == u;
  }

  // ---------------------------------------------------------------- which texts are uuids

  /** A hexadecimal digit is one of these sixteen characters, or a capital of the last six. */
  lemma HexValueIff(c: char, d: nat)
    ensures HexValue(c) == Some(d) <==>
            d < 16 && (c == "0123456789abcdef"[d] || (d >= 10 && c == "ABCDEF"[d - 10]))
  {
  }

  const HYPHEN_PLACES: set<nat> := {4, 8, 12, 16, 20, 24, 28}

  /** The digits from the i-th on, with a hyphen behind as many digits as the set says. */
  function Spelling(digits: string, hyphens: set<nat>, i: nat): string
    requires i <= |digits|
    decreases |digits| - i
  {
    if i == |digits| then ""
    else [digits[i]] + (if i + 1 in hyphens then "-" else "") + Spelling(digits, hyphens, i + 1)
  }

  /** These digits, in either case, with hyphens behind some of the groups of four. */
  ghost predicate Spells(s: string, digits: string, hyphens: set<nat>, u: Uuid) {
    && |digits| == 32 && hyphens <= HYPHEN_PLACES && s == Spelling(digits, hyphens, 0)
    && forall k :: 0 <= k < 32 ==> HexValue(digits[k]) == Some(u[k])
  }

  ghost predicate IsSpelling(s: string, u: Uuid) {
    exists digits, hyphens :: Spells(s, digits, hyphens, u)
  }

  lemma {:induction false} SpellingParses(digits: string, hyphens: set<nat>, u: Uuid, i: nat)
    requires |digits| == 32 && hyphens <= HYPHEN_PLACES && i <= 32
    requires forall k :: 0 <= k < 32 ==> HexValue(digits[k]) == Some(u[k])
    ensures ParseFrom(Spelling(digits, hyphens, i), i) == Some(u[i..])
    decreases 32 - i
  {
    hide HexValue, ParseFrom;
    if i == 32 {
      EmptyParse();
    } else {
      SpellingParses(digits, hyphens, u, i + 1);
      var rest := Spelling(digits, hyphens, i + 1);
      assert rest != "" ==> rest[0] != '-' by { NoHyphenHere(); }
      ParseDigit(digits[i], rest, i, i + 1 in hyphens);
      assert u[i..] == [u[i]] + u[i + 1..];
    }
  }

  lemma NoHyphenHere()
    ensures HexValue('-') == None && HexValue('{') == None
  {
  }

  /** Only the places behind the i-th digit matter. */
  lemma {:induction false} SameSpelling(digits: string, places: set<nat>, hyphens: set<nat>, i: nat)
    requires i <= |digits| && forall h: nat :: h > i ==> (h in places <==> h in hyphens)
    ensures Spelling(digits, places, i) == Spelling(digits, hyphens, i)
    decreases |digits| - i
  {
    if i < |digits| { SameSpelling(digits, places, hyphens, i + 1); }
  }

  /** The text behind the i-th digit, and whether a hyphen stood before it. */
  function AfterDigit(s: string, i: nat): (string, bool)
    requires s != "" && i < 32
  {
    var j, rest := i + 1, s[1..];
    if j % 4 == 0 && j < 32 && rest != "" && rest[0] == '-' then (rest[1..], true) else (rest, false)
  }

  lemma DigitsApart(s: string, i: nat)
    requires s != "" && i < 32
    ensures s == [s[0]] + (if AfterDigit(s, i).1 then "-" else "") + AfterDigit(s, i).0
    ensures AfterDigit(s, i).1 ==> i + 1 in HYPHEN_PLACES
  {
    assert s == [s[0]] + s[1..];
    assert AfterDigit(s, i).1 ==> s[1..] == "-" + s[1..][1..];
  }

  lemma ParsedDigit(s: string, i: nat)
    requires i < 32 && ParseFrom(s, i).Some?
    ensures s != "" && HexValue(s[0]).Some? && ParseFrom(AfterDigit(s, i).0, i + 1).Some?
    ensures ParseFrom(s, i).value == [HexValue(s[0]).value] + ParseFrom(AfterDigit(s, i).0, i + 1).value
  {
    hide HexValue;
  }

  /** The digits from the i-th on have these values. */
  ghost predicate Values(digits: string, i: nat, v: seq<nat>) {
    i + |v| == |digits| && forall k :: 0 <= k < |v| ==> HexValue(digits[i + k]) == Some(v[k])
  }

  lemma OneValueMore(digits: string, i: nat, x: nat, v: seq<nat>)
    requires Values(digits, i + 1, v) && HexValue(digits[i]) == Some(x)
    ensures Values(digits, i, [x] + v)
  {
    hide HexValue;
    forall k | 0 <= k < |v| + 1 ensures HexValue(digits[i + k]) == Some(([x] + v)[k]) {
      if k > 0 { assert HexValue(digits[i + 1 + (k - 1)]) == Some(v[k - 1]); }
    }
  }

  /** What was read behind the digits before, digit by digit, and where the hyphens were. */
  lemma {:induction false} ParsedFrom(s: string, before: string) returns (digits: string, hyphens: set<nat>)
    requires |before| <= 32 && ParseFrom(s, |before|).Some?
    ensures |digits| == 32 && before <= digits && s == Spelling(digits, hyphens, |before|)
    ensures forall h :: h in hyphens ==> |before| < h && h in HYPHEN_PLACES
    ensures Values(digits, |before|, ParseFrom(s, |before|).value)
    decreases 32 - |before|
  {
    var i := |before|;
    if i == 32 {
      digits, hyphens := before, {};
    } else {
      hide *;
      ParsedDigit(s, i);
      DigitsApart(s, i);
      var tail, hyphen := AfterDigit(s, i).0, AfterDigit(s, i).1;
      var places;
      digits, places := ParsedFrom(tail, before + [s[0]]);
      hyphens := if hyphen then places + {i + 1} else places;
      SameSpelling(digits, places, hyphens, i + 1);
      assert digits[i] == s[0];
      SpelledDigit(digits, hyphens, i);
      OneValueMore(digits, i, HexValue(s[0]).value, ParseFrom(tail, i + 1).value);
    }
  }

  lemma SpelledDigit(digits: string, hyphens: set<nat>, i: nat)
    requires i < |digits|
    ensures Spelling(digits, hyphens, i) ==
            [digits[i]] + (if i + 1 in hyphens then "-" else "") + Spelling(digits, hyphens, i + 1)
  {
  }

  lemma ParseFromIff(s: string, u: Uuid)
    ensures ParseFrom(s, 0) == Some(u) <==> IsSpelling(s, u)
  {
    if ParseFrom(s, 0) == Some(u) {
      var digits, hyphens := ParsedFrom(s, "");
      assert Spells(s, digits, hyphens, u);
    }
    if digits, hyphens :| Spells(s, digits, hyphens, u) {
      SpellingParses(digits, hyphens, u, 0);
      assert u[0..] == u;
    }
  }

  /** The cast accepts a text exactly if it spells a uuid, in braces or without: 32 hexadecimal digits,
    * in either case, with hyphens behind any of the groups of four but the last. */
  lemma ParseIff(s: string, u: Uuid)
    ensures Parse(s) == Some(u) <==> IsSpelling(s, u) || exists inner :: IsSpelling(inner, u) && s == "{" + inner + "}"
  {
    hide ParseFrom, IsSpelling;
    if |s| >= 2 && s[0] == '{' && s[|s| - 1] == '}' {
      var inner := s[1..|s| - 1];
      ParseFromIff(inner, u);
      assert s == "{" + inner + "}";
      assert forall x: string :: s == "{" + x + "}" ==> x == s[1..|s| - 1];
      BraceIsNoSpelling(s, u);
    } else {
      ParseFromIff(s, u);
      assert forall x: string :: |"{" + x + "}"| >= 2 && ("{" + x + "}")[0] == '{' && ("{" + x + "}")[|x| + 1] == '}';
    }
  }

  lemma BraceIsNoSpelling(s: string, u: Uuid)
    requires s != "" && s[0] == '{'
    ensures !IsSpelling(s, u)
  {
    NoHyphenHere();
    ParseFromIff(s, u);
    hide HexValue, IsSpelling;
  }

  // ---------------------------------------------------------------- the database

  type TableName = string
  type Location = (TableName, string)

  datatype IdType = MissingTable | TextType | UuidType

  /** A tenant id in whichever type the column has. */
  datatype Id = Text(text: string) | Uid(uuid: Uuid)

  datatype DataRow = DataRow(tenant: Id, refs: map<string, Option<string>>)

  /** A foreign key by its names and the text pg_get_constraintdef renders. */
  datatype ForeignKey = ForeignKey(table: TableName, name: string, parent: TableName, definition: string)

  datatype Policy = TextPolicy | UuidPolicy

  datatype Schema = Schema(idType: IdType, fks: set<ForeignKey>, policies: map<TableName, Policy>)

  datatype Data = Data(tenants: set<Id>, rows: map<Location, DataRow>)

  datatype Error = PrerequisiteMissing | InvalidUuid | DuplicateTenant

  class Database {
    var schema: Schema
    var data: Data

    constructor (schema: Schema, data: Data)
      ensures this.schema == schema && this.data == data
    {
      this.schema, this.data := schema, data;
    }
  }

  /** Constraint names are unique within a table. */
  ghost predicate NamesUnique(fks: set<ForeignKey>) {
    forall f, g :: f in fks && g in fks && f.table == g.table && f.name == g.name ==> f == g
  }

  predicate Castable(id: Id) {
    id.Text? && Parse(id.text).Some?
  }

  function ToUuid(id: Id): Id {
    if Castable(id) then Uid(Parse(id.text).value) else id
  }

  function ToText(id: Id): Id {
    if id.Uid? then Text(Render(id.uuid)) else id
  }

  function AllIds(d: Data): set<Id> {
    d.tenants + set loc | loc in d.rows :: d.rows[loc].tenant
  }

  function Mapped(d: Data, f: Id -> Id): Data {
    Data(set t | t in d.tenants :: f(t),
         map loc | loc in d.rows :: d.rows[loc].(tenant := f(d.rows[loc].tenant)))
  }

  predicate DistinctUnder(ids: set<Id>, f: Id -> Id) {
    forall a, b :: a in ids && b in ids && f(a) == f(b) ==> a == b
  }

  /** ALTER COLUMN ... TYPE uuid USING ...::uuid over the tenants table and all tenant_id columns:
    * fails on a text that is no uuid and on two tenants that become one. */
  function Converted(d: Data): Result<Data, Error> {
    if exists id :: id in AllIds(d) && !Castable(id) then Err(InvalidUuid)
    else if !DistinctUnder(d.tenants, ToUuid) then Err(DuplicateTenant)
    else Ok(Mapped(d, ToUuid))
  }

  /** The conversion succeeds exactly if every id, of a tenant or of a row, is a text that spells a uuid,
    * and no two tenants' texts spell the same; an id that does not is reported before the other. */
  lemma ConvertedIff(d: Data)
    ensures Converted(d) == Err(InvalidUuid) <==>
              || (exists t :: t in d.tenants && !Castable(t))
              || (exists loc :: loc in d.rows && !Castable(d.rows[loc].tenant))
    ensures Converted(d) == Err(DuplicateTenant) <==>
              Converted(d) != Err(InvalidUuid)
              && exists a, b :: a in d.tenants && b in d.tenants && a != b && Parse(a.text) == Parse(b.text)
    ensures Converted(d).Ok? ==>
              && (forall t :: t in Converted(d).value.tenants <==>
                    exists a :: a in d.tenants && t == Uid(Parse(a.text).value))
              && (forall loc :: loc in d.rows <==> loc in Converted(d).value.rows)
              && (forall loc :: loc in d.rows ==>
                    Converted(d).value.rows[loc] == d.rows[loc].(tenant := Uid(Parse(d.rows[loc].tenant.text).value)))
  {
    hide Parse;
    assert forall t :: t in d.tenants ==> t in AllIds(d);
    assert forall loc :: loc in d.rows ==> d.rows[loc].tenant in AllIds(d);
  }

  /** The snapshot query: every foreign key on or to a touched table. */
  function Touching(fks: set<ForeignKey>, tables: set<TableName>): set<ForeignKey> {
    set f | f in fks && (f.table in tables || f.parent in tables)
  }

  /** Drops the snapshotted keys one by one, by table and name. */
  method DropKeys(fks0: set<ForeignKey>, snapshot: set<ForeignKey>) returns (fks: set<ForeignKey>)
    requires NamesUnique(fks0) && snapshot <= fks0
    ensures fks == fks0 - snapshot
  {
    fks := fks0;
    var todo := snapshot;
    while todo != {}
      invariant todo <= snapshot && fks == fks0 - (snapshot - todo)
      decreases |todo|
    {
      var f :| f in todo;
      var kept := set g | g in fks && !(g.table == f.table && g.name == f.name);
      assert kept == fks - {f};
      fks, todo := kept, todo - {f};
    }
  }

  /** Adds the snapshotted keys back verbatim. */
  method RestoreKeys(fks0: set<ForeignKey>, snapshot: set<ForeignKey>) returns (fks: set<ForeignKey>)
    ensures fks == fks0 + snapshot
  {
    fks := fks0;
    var todo := snapshot;
    while todo != {}
      invariant todo <= snapshot && fks == fks0 + (snapshot - todo)
      decreases |todo|
    {
      var f :| f in todo;
      fks, todo := fks + {f}, todo - {f};
    }
  }

  method CreatePolicies(policies0: map<TableName, Policy>, scoped: seq<TableName>, policy: Policy)
    returns (policies: map<TableName, Policy>)
    ensures policies.Keys == policies0.Keys + set t | t in scoped
    ensures forall t :: t in policies ==>
              policies[t] == if t in scoped then policy else policies0[t]
  {
    policies := policies0;
    var i := 0;
    while i < |scoped|
      invariant 0 <= i <= |scoped|
      invariant policies.Keys == policies0.Keys + set t | t in scoped[..i]
      invariant forall t :: t in policies ==>
                  policies[t] == if t in scoped[..i] then policy else policies0[t]
    {
      assert scoped[..i + 1] == scoped[..i] + [scoped[i]];
      policies := policies[scoped[i] := policy];
      i := i + 1;
    }
    assert scoped[..i] == scoped;
  }

  /** No key on or to a touched table, and no policy on a scoped one: the server changes the type of a
    * column only then. */
  ghost predicate Unlocked(fks: set<ForeignKey>, policies: map<TableName, Policy>, touched: set<TableName>,
                           scoped: seq<TableName>) {
    && (forall f :: f in fks ==> f.table !in touched && f.parent !in touched)
    && forall t :: t in scoped ==> t !in policies
  }

  /** The ALTER statements of the upgrade. */
  method AlterToUuid(d: Data, ghost fks: set<ForeignKey>, ghost policies: map<TableName, Policy>,
                     ghost touched: set<TableName>, ghost scoped: seq<TableName>)
    returns (r: Result<Data, Error>)
    requires Unlocked(fks, policies, touched, scoped)
    ensures r == Converted(d)
  {
    r := Converted(d);
  }

  /** And those of the downgrade. */
  method AlterToText(d: Data, ghost fks: set<ForeignKey>, ghost policies: map<TableName, Policy>,
                     ghost touched: set<TableName>, ghost scoped: seq<TableName>)
    returns (r: Data)
    requires Unlocked(fks, policies, touched, scoped)
    ensures r == Mapped(d, ToText)
  {
    r := Mapped(d, ToText);
  }

  /** upgrade(), in one transaction: an error undoes everything. */
  method Upgrade(db: Database, touched: set<TableName>, scoped: seq<TableName>) returns (r: Result<(), Error>)
    requires NamesUnique(db.schema.fks)
    modifies db
    ensures old(db.schema.idType) == MissingTable ==> r == Err(PrerequisiteMissing)
    ensures old(db.schema.idType) == UuidType ==> r == Ok(())
    ensures old(db.schema.idType) != TextType || r.Err? ==> db.schema == old(db.schema) && db.data == old(db.data)
    ensures old(db.schema.idType) == TextType ==>
              match Converted(old(db.data))
              case Err(e) => r == Err(e)
              case Ok(data) =>
                r == Ok(()) && db.data == data && Reshaped(old(db.schema), db.schema, UuidType, UuidPolicy, scoped)
  {
    if db.schema.idType == MissingTable { return Err(PrerequisiteMissing); }
    if db.schema.idType == UuidType { return Ok(()); }
    var snapshot := Touching(db.schema.fks, touched);
    var fks := DropKeys(db.schema.fks, snapshot);
    var policies := db.schema.policies - set t | t in scoped;
    var converted := AlterToUuid(db.data, fks, policies, touched, scoped);
    if converted.Err? { return Err(converted.error); }
    fks := RestoreKeys(fks, snapshot);
    policies := CreatePolicies(policies, scoped, UuidPolicy);
    db.data := converted.value;
    db.schema := Schema(UuidType, fks, policies);
    return Ok(());
  }

  /** downgrade(): the same steps with the casts reversed. */
  method Downgrade(db: Database, touched: set<TableName>, scoped: seq<TableName>)
    requires NamesUnique(db.schema.fks)
    modifies db
    ensures db.data == Mapped(old(db.data), ToText)
    ensures Reshaped(old(db.schema), db.schema, TextType, TextPolicy, scoped)
  {
    var snapshot := Touching(db.schema.fks, touched);
    var fks := DropKeys(db.schema.fks, snapshot);
    var policies := db.schema.policies - set t | t in scoped;
    db.data := AlterToText(db.data, fks, policies, touched, scoped);
    fks := RestoreKeys(fks, snapshot);
    policies := CreatePolicies(policies, scoped, TextPolicy);
    db.schema := Schema(TextType, fks, policies);
  }

  /** Only the id type and the policies of the scoped tables differ; the foreign key catalogue is
    * identical. */
  ghost predicate Reshaped(before: Schema, after: Schema, idType: IdType, policy: Policy, scoped: seq<TableName>) {
    && after.idType == idType
    && after.fks == before.fks
    && after.policies.Keys == before.policies.Keys + (set t | t in scoped)
    && forall t :: t in after.policies ==>
         after.policies[t] == if t in scoped then policy else before.policies[t]
  }

  // ---------------------------------------------------------------- what survives the conversion

  /** A composite key (tenant_id, column) -> (tenant_id, id) of a parent table. */
  ghost predicate KeyHolds(d: Data, child: TableName, column: string, parent: TableName) {
    forall loc :: loc in d.rows && loc.0 == child
                  && column in d.rows[loc].refs && d.rows[loc].refs[column].Some? ==>
      var p := (parent, d.rows[loc].refs[column].value);
      p in d.rows && d.rows[p].tenant == d.rows[loc].tenant
  }

  ghost predicate TenantsKnown(d: Data) {
    forall loc :: loc in d.rows ==> d.rows[loc].tenant in d.tenants
  }

  /** Restoring the foreign keys never fails: each one, simple or composite, holds on the converted
    * rows if and only if it held before, given that distinct ids stay distinct. */
  lemma KeysSurvive(d: Data, child: TableName, column: string, parent: TableName)
    requires Converted(d).Ok? && TenantsKnown(d)
    ensures TenantsKnown(Converted(d).value)
    ensures KeyHolds(Converted(d).value, child, column, parent) <==> KeyHolds(d, child, column, parent)
  {
    var e := Converted(d).value;
    forall loc | loc in d.rows ensures e.rows[loc].tenant in e.tenants {
      assert d.rows[loc].tenant in d.tenants;
    }
    if KeyHolds(e, child, column, parent) {
      forall loc | loc in d.rows && loc.0 == child && column in d.rows[loc].refs && d.rows[loc].refs[column].Some?
        ensures var p := (parent, d.rows[loc].refs[column].value);
          p in d.rows && d.rows[p].tenant == d.rows[loc].tenant
      {
        var p := (parent, e.rows[loc].refs[column].value);
        assert p in e.rows && e.rows[p].tenant == e.rows[loc].tenant;
        assert d.rows[p].tenant in d.tenants && d.rows[loc].tenant in d.tenants;
      }
    }
  }

  /** The rows a session sees under the text policy and under the cast policy; the cast of a setting
    * that is no uuid is an error, so that session sees nothing. */
  function VisibleText(d: Data, setting: string): set<Location> {
    set loc | loc in d.rows && d.rows[loc].tenant == Text(setting)
  }

  function VisibleUuid(d: Data, setting: string): set<Location> {
    set loc | loc in d.rows && Parse(setting).Some? && d.rows[loc].tenant == Uid(Parse(setting).value)
  }

  lemma RowsConvert(d: Data, loc: Location)
    requires Converted(d).Ok? && loc in d.rows
    ensures Castable(d.rows[loc].tenant)
    ensures var e := Converted(d).value; loc in e.rows && e.rows[loc].tenant == ToUuid(d.rows[loc].tenant)
  {
    assert d.rows[loc].tenant in AllIds(d);
  }

  /** A session whose setting is a tenant's stored id sees the same rows before and after. */
  lemma StoredSessionsSeeTheSame(d: Data, setting: string)
    requires Converted(d).Ok? && TenantsKnown(d) && Text(setting) in d.tenants
    ensures VisibleUuid(Converted(d).value, setting) == VisibleText(d, setting)
  {
    hide Parse;
    var e := Converted(d).value;
    assert Castable(Text(setting)) by { assert Text(setting) in AllIds(d); }
    forall loc | loc in d.rows ensures loc in VisibleUuid(e, setting) <==> loc in VisibleText(d, setting) {
      RowsConvert(d, loc);
      assert d.rows[loc].tenant in d.tenants;
      assert ToUuid(d.rows[loc].tenant) == ToUuid(Text(setting)) <==> d.rows[loc].tenant == Text(setting);
    }
  }

  /** Some stored row belongs to the tenant that the setting names under one spelling or another. */
  ghost predicate NamesTenantWithRows(d: Data, setting: string) {
    exists loc :: loc in d.rows && SameUuid(d.rows[loc].tenant, setting)
  }

  predicate SameUuid(id: Id, setting: string) {
    Castable(id) && Parse(id.text) == Parse(setting)
  }

  /** Any session sees the same rows before and after exactly when its setting is spelled as some
    * stored tenant id, or names no tenant that has rows under any spelling. */
  lemma VisibilitySurvivesIff(d: Data, setting: string)
    requires Converted(d).Ok? && TenantsKnown(d)
    ensures VisibleUuid(Converted(d).value, setting) == VisibleText(d, setting) <==>
            Text(setting) in d.tenants || !NamesTenantWithRows(d, setting)
  {
    hide Parse;
    var e := Converted(d).value;
    forall loc | loc in d.rows ensures loc in VisibleUuid(e, setting) <==> SameUuid(d.rows[loc].tenant, setting) {
      RowsConvert(d, loc);
    }
    if Text(setting) in d.tenants {
      StoredSessionsSeeTheSame(d, setting);
    } else {
      forall loc | loc in d.rows ensures d.rows[loc].tenant != Text(setting) {
        assert d.rows[loc].tenant in d.tenants;
      }
      assert VisibleText(d, setting) == {};
    }
  }

  /** The spelling the downgrade writes. */
  function Canonical(id: Id): Id {
    ToText(ToUuid(id))
  }

  lemma CanonicalTwice(id: Id)
    requires Castable(id)
    ensures Canonical(id).Text? && Canonical(Canonical(id)) == Canonical(id)
  {
    ParseRender(Parse(id.text).value);
  }

  lemma MappedTwice(d: Data)
    ensures Mapped(Mapped(d, ToUuid), ToText) == Mapped(d, Canonical)
  {
    hide Parse, Render;
    var e := Mapped(d, ToUuid);
    var back, want := Mapped(e, ToText), Mapped(d, Canonical);
    forall t ensures t in back.tenants <==> t in want.tenants {
      if t in back.tenants {
        var v :| v in e.tenants && t == ToText(v);
        var u :| u in d.tenants && v == ToUuid(u);
      }
      if t in want.tenants {
        var u :| u in d.tenants && t == Canonical(u);
        assert ToUuid(u) in e.tenants;
      }
    }
    assert back.rows == want.rows;
  }

  /** Downgrade after upgrade gives every id back in its canonical spelling, and so the original data
    * exactly when every id was stored canonically. */
  lemma DowngradeIsCanonical(d: Data)
    requires Converted(d).Ok?
    ensures Mapped(Converted(d).value, ToText) == Mapped(d, Canonical)
    ensures Mapped(d, Canonical) == d <==> forall id :: id in AllIds(d) ==> Canonical(id) == id
  {
    hide Parse, Render, ToText, ToUuid;
    MappedTwice(d);
    forall id | id in AllIds(d) ensures Canonical(Canonical(id)) == Canonical(id) {
      CanonicalTwice(id);
    }
    if forall id :: id in AllIds(d) ==> Canonical(id) == id {
      FixedData(d, Canonical);
    }
    if Mapped(d, Canonical) == d {
      FixedIds(d, Canonical);
    }
  }

  lemma FixedData(d: Data, f: Id -> Id)
    requires forall id :: id in AllIds(d) ==> f(id) == id
    ensures Mapped(d, f) == d
  {
    var back := Mapped(d, f);
    forall loc | loc in d.rows ensures back.rows[loc] == d.rows[loc] {
      assert d.rows[loc].tenant in AllIds(d);
    }
    assert back.rows == d.rows;
    forall t ensures t in back.tenants <==> t in d.tenants {
      if t in back.tenants {
        var u :| u in d.tenants && t == f(u);
        assert u in AllIds(d);
      }
      if t in d.tenants {
        assert t in AllIds(d) && f(t) == t;
      }
    }
  }

  lemma FixedIds(d: Data, f: Id -> Id)
    requires Mapped(d, f) == d && forall id :: id in AllIds(d) ==> f(f(id)) == f(id)
    ensures forall id :: id in AllIds(d) ==> f(id) == id
  {
    forall id | id in AllIds(d) ensures f(id) == id {
      if id in d.tenants {
        assert id in Mapped(d, f).tenants;
        var u :| u in d.tenants && id == f(u);
        assert u in AllIds(d);
      } else {
        var loc :| loc in d.rows && d.rows[loc].tenant == id;
        assert Mapped(d, f).rows[loc].tenant == f(id);
      }
    }
  }
}
