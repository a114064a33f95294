/** The fifth release folds four columns of llm_providers into the row's JSON config; its downgrade
  * reads them back, and binding a value to a column may fail or respell it. */
module ProviderConfig {
  import opened Wrappers

  /** A number comes with the text the server makes of it, an array with that text if the driver can
    * bind it at all. */
  datatype Json =
    | Null
    | Bool(b: bool)
    | Num(zero: bool, text: string)
    | Str(s: string)
    | Arr(empty: bool, bound: Option<string>)
    | Obj(fields: Object)

  type Object = map<string, Json>

  datatype Column = Endpoint | Streaming | Functions | Vision

  /** A row: a column that does not exist reads as Null. */
  datatype Provider = Provider(config: Option<Object>, columns: map<Column, Json>)

  /** AttributeError is Python's, BindError the driver's or the server's. */
  datatype Error = AttributeError | BindError

  const BASE_URL := "get_api_base_url"
  const CAPABILITIES := "get_capabilities"
  const ALL_COLUMNS: set<Column> := {Endpoint, Streaming, Functions, Vision}
  const FLAG_COLUMNS: set<Column> := {Streaming, Functions, Vision}

  predicate Truthy(v: Json) {
    match v
    case Null => false
    case Bool(b) => b
    case Num(zero, _) => !zero
    case Str(s) => s != ""
    case Arr(empty, _) => !empty
    case Obj(fields) => fields != map[]
  }

  function Get(o: Object, key: string): Json {
    if key in o then o[key] else Null
  }

  function Value(p: Provider, c: Column): Json {
    if c in p.columns then p.columns[c] else Null
  }

  function CapabilityKey(c: Column): string {
    match c
    case Streaming => "streaming"
    case Functions => "tools"
    case Vision => "vision"
    case Endpoint => BASE_URL
  }

  function Label(c: Column): string {
    match c
    case Streaming => "Supports Streaming"
    case Functions => "Supports Tool Calling"
    case Vision => "Supports Vision"
    case Endpoint => ""
  }

  // ---------------------------------------------------------------- one row, upwards

  function StoredConfig(p: Provider): Object {
    if p.config.Some? then p.config.value else map[]
  }

  /** The capabilities of a config; anything but an object counts as none. */
  function CapabilitiesOf(config: Object): Object {
    var v := Get(config, CAPABILITIES);
    if v.Obj? then v.fields else map[]
  }

  function WithCapability(caps: Object, c: Column, v: Json): Object {
    if CapabilityKey(c) !in caps && v != Null
    then caps[CapabilityKey(c) := Obj(map["value" := Bool(Truthy(v)), "label" := Str(Label(c))])]
    else caps
  }

  function NewCapabilities(p: Provider): Object {
    var c0 := CapabilitiesOf(StoredConfig(p));
    var c1 := WithCapability(c0, Streaming, Value(p, Streaming));
    var c2 := WithCapability(c1, Functions, Value(p, Functions));
    WithCapability(c2, Vision, Value(p, Vision))
  }

  function NewConfig(p: Provider): Object {
    var stored := StoredConfig(p);
    var e := Value(p, Endpoint);
    var config := if Truthy(e) && !Truthy(Get(stored, BASE_URL)) then stored[BASE_URL := e] else stored;
    var caps := NewCapabilities(p);
    if caps != map[] then config[CAPABILITIES := Obj(caps)] else config
  }

  // ---------------------------------------------------------------- one row, downwards

  /** capabilities.get(key, {}).get("value"). */
  function FlagFrom(caps: Object, c: Column): Result<Json, Error> {
    if CapabilityKey(c) !in caps then Ok(Null)
    else if caps[CapabilityKey(c)].Obj? then Ok(Get(caps[CapabilityKey(c)].fields, "value"))
    else Err(AttributeError)
  }

  function LowerChar(c: char): char {
    if 'A' <= c <= 'Z' then c + 32 as char else c
  }

  function Lower(s: string): string {
    seq(|s|, i requires 0 <= i < |s| => LowerChar(s[i]))
  }

  function Trim(s: string): string {
    if s == "" then ""
    else if IsBlank(s[0]) then Trim(s[1..])
    else if IsBlank(s[|s| - 1]) then Trim(s[..|s| - 1])
    else s
  }

  predicate IsBlank(c: char) {
    c in {' ', '\t', '\n', '\r', '\U{0b}', '\U{0c}'}
  }

  predicate Abbreviates(s: string, word: string) {
    0 < |s| <= |word| && word[..|s|] == s
  }

  /** The texts a boolean column accepts. */
  function ParseBool(s: string): Option<bool> {
    var t := Lower(Trim(s));
    if Abbreviates(t, "true") || Abbreviates(t, "yes") || t == "on" || t == "1" then Some(true)
    else if Abbreviates(t, "false") || Abbreviates(t, "no") || t == "of" || t == "off" || t == "0" then Some(false)
    else None
  }

  /** What a boolean column holds after a value was bound to it. */
  function AsFlag(v: Json): Result<Json, Error> {
    match v
    case Null => Ok(Null)
    case Bool(_) => Ok(v)
    case Str(s) => if ParseBool(s).Some? then Ok(Bool(ParseBool(s).value)) else Err(BindError)
    case _ => Err(BindError)
  }

  /** The same for a text column. */
  function AsText(v: Json): Result<Json, Error> {
    match v
    case Null => Ok(Null)
    case Str(_) => Ok(v)
    case Bool(b) => Ok(Str(if b then "true" else "false"))
    case Num(_, text) => Ok(Str(text))
    case Arr(_, bound) => if bound.Some? then Ok(Str(bound.value)) else Err(BindError)
    case Obj(_) => Err(BindError)
  }

  /** UPDATE llm_providers SET ... for one row. */
  function Stored(p: Provider, url: Json, streaming: Json, functions: Json, vision: Json): Result<Provider, Error> {
    var u, s, f, v := AsText(url), AsFlag(streaming), AsFlag(functions), AsFlag(vision);
    if u.Err? || s.Err? || f.Err? || v.Err? then Err(BindError)
    else Ok(p.(columns := map[Endpoint := u.value, Streaming := s.value, Functions := f.value, Vision := v.value]))
  }

  function RestoredRow(p: Provider): Result<Provider, Error> {
    var config := StoredConfig(p);
    if config == map[] then Ok(p)
    else if CAPABILITIES in config && !config[CAPABILITIES].Obj? then Err(AttributeError)
    else
      var caps := CapabilitiesOf(config);
      var s, f, v := FlagFrom(caps, Streaming), FlagFrom(caps, Functions), FlagFrom(caps, Vision);
      if s.Err? || f.Err? || v.Err? then Err(AttributeError)
      else Stored(p, Get(config, BASE_URL), s.value, f.value, v.value)
  }

  // ---------------------------------------------------------------- the table

  class ProviderTable {
    var columns: set<Column>
    var rows: seq<Provider>

    ghost predicate Valid()
      reads this
    {
      forall i :: 0 <= i < |rows| ==> rows[i].columns.Keys == columns
    }

    /** The config of every row takes the columns in; then the columns are dropped. */
    method Upgrade()
      requires Valid()
      modifies this
      ensures Valid() && columns == {} && |rows| == |old(rows)|
      ensures old(columns) == {} ==> rows == old(rows)
      ensures old(columns) != {} ==> forall i :: 0 <= i < |rows| ==> rows[i] == UpgradedRow(old(rows[i]))
    {
      if columns == {} {
        return;
      }
      var i := 0;
      while i < |rows|
        invariant 0 <= i <= |rows| == |old(rows)| && columns == old(columns)
        invariant forall k :: 0 <= k < i ==> rows[k] == old(rows[k]).(config := Some(NewConfig(old(rows[k]))))
        invariant forall k :: i <= k < |rows| ==> rows[k] == old(rows[k])
      {
        var p := rows[i];
        var config := StoredConfig(p);
        if Truthy(Value(p, Endpoint)) && !Truthy(Get(config, BASE_URL)) {
          config := config[BASE_URL := Value(p, Endpoint)];
        }
        var caps := CapabilitiesOf(config);
        caps := WithCapability(caps, Streaming, Value(p, Streaming));
        caps := WithCapability(caps, Functions, Value(p, Functions));
        caps := WithCapability(caps, Vision, Value(p, Vision));
        if caps != map[] {
          config := config[CAPABILITIES := Obj(caps)];
        }
        rows := rows[i := p.(config := Some(config))];
        i := i + 1;
      }
      rows := seq(|rows|, k requires 0 <= k < |rows| reads this => rows[k].(columns := map[]));
      columns := {};
    }

    /** Re-adds the missing columns as NULL and fills them from the config; an error leaves the
      * transaction, and so the table, as it was. */
    method Downgrade() returns (r: Result<(), Error>)
      requires Valid()
      modifies this
      ensures Valid()
      ensures r.Ok? <==> forall i :: 0 <= i < |old(rows)| ==> RestoredRow(Widened(old(rows[i]))).Ok?
      ensures r.Ok? ==> columns == ALL_COLUMNS && |rows| == |old(rows)|
      ensures r.Ok? ==> forall i :: 0 <= i < |rows| ==> RestoredRow(Widened(old(rows[i]))) == Ok(rows[i])
      ensures r.Err? ==> rows == old(rows) && columns == old(columns)
                         && exists i :: 0 <= i < |rows| && RestoredRow(Widened(rows[i])) == Err(r.error)
    {
      var work := seq(|rows|, k requires 0 <= k < |rows| reads this => Widened(rows[k]));
      var i := 0;
      while i < |work|
        invariant 0 <= i <= |work| == |rows| && rows == old(rows) && columns == old(columns)
        invariant forall k :: 0 <= k < i ==> RestoredRow(Widened(rows[k])) == Ok(work[k])
        invariant forall k :: i <= k < |work| ==> work[k] == Widened(rows[k])
      {
        var p := RestoredRow(work[i]);
        if p.Err? {
          return Err(p.error);
        }
        work := work[i := p.value];
        i := i + 1;
      }
      forall k | 0 <= k < |work| ensures work[k].columns.Keys == ALL_COLUMNS {
        RestoredColumns(Widened(rows[k]));
      }
      rows, columns := work, ALL_COLUMNS;
      r := Ok(());
    }
  }

  function UpgradedRow(p: Provider): Provider {
    Provider(Some(NewConfig(p)), map[])
  }

  /** A row once every missing column is there, holding NULL. */
  function Widened(p: Provider): Provider {
    p.(columns := map c | c in ALL_COLUMNS :: Value(p, c))
  }

  lemma RestoredColumns(p: Provider)
    requires p.columns.Keys == ALL_COLUMNS
    ensures RestoredRow(p).Ok? ==> RestoredRow(p).value.columns.Keys == ALL_COLUMNS
  {
  }

  // ---------------------------------------------------------------- what the two promise together

  /** The row after an upgrade and a downgrade. */
  function RoundTrip(p: Provider): Result<Provider, Error> {
    RestoredRow(Widened(UpgradedRow(p)))
  }

  /** Every flag of the row is NULL. */
  predicate NoFlags(p: Provider) {
    Value(p, Streaming) == Null && Value(p, Functions) == Null && Value(p, Vision) == Null
  }

  /** The stored capabilities are no object, and no flag is there to replace them. */
  predicate CapabilitiesUnusable(p: Provider) {
    CAPABILITIES in StoredConfig(p) && !StoredConfig(p)[CAPABILITIES].Obj? && NoFlags(p)
  }

  /** A capability the stored config already has is an object. */
  predicate Readable(caps: Object, c: Column) {
    CapabilityKey(c) in caps ==> caps[CapabilityKey(c)].Obj?
  }

  /** And its value can be bound to a boolean column. */
  predicate Bindable(caps: Object, c: Column) {
    CapabilityKey(c) in caps && caps[CapabilityKey(c)].Obj? ==>
      AsFlag(Get(caps[CapabilityKey(c)].fields, "value")).Ok?
  }

  /** The base URL an upgrade leaves. */
  function UrlAfter(p: Provider): Json {
    var e, u := Value(p, Endpoint), Get(StoredConfig(p), BASE_URL);
    if Truthy(e) && !Truthy(u) then e else u
  }

  /** The capability a config ends up with for one flag. */
  lemma CapabilityAfter(p: Provider, c: Column)
    requires c != Endpoint
    ensures var had := CapabilitiesOf(StoredConfig(p)); var key := CapabilityKey(c);
      && (key in had ==> key in NewCapabilities(p) && NewCapabilities(p)[key] == had[key])
      && (key !in had && Value(p, c) == Null ==> key !in NewCapabilities(p))
      && (key !in had && Value(p, c) != Null ==>
            key in NewCapabilities(p) && NewCapabilities(p)[key].Obj?
            && Get(NewCapabilities(p)[key].fields, "value") == Bool(Truthy(Value(p, c))))
  {
  }

  /** What a flag column becomes, by name: an entry with its truth value and its label, unless the column
    * is NULL or the config has an entry of that name. */
  ghost predicate Folded(p: Provider, c: Column, key: string, title: string) {
    var had, caps := CapabilitiesOf(StoredConfig(p)), NewCapabilities(p);
    if key in had || Value(p, c) == Null then (key in caps <==> key in had) && (key in had ==> caps[key] == had[key])
    else key in caps && caps[key] == Obj(map["value" := Bool(Truthy(Value(p, c))), "label" := Str(title)])
  }

  /** The capabilities after the upgrade: those of the three flags, and of the rest what was there. */
  lemma NewCapabilitiesAre(p: Provider, key: string)
    ensures Folded(p, Streaming, "streaming", "Supports Streaming")
    ensures Folded(p, Functions, "tools", "Supports Tool Calling")
    ensures Folded(p, Vision, "vision", "Supports Vision")
    ensures var had, caps := CapabilitiesOf(StoredConfig(p)), NewCapabilities(p);
      key !in {"streaming", "tools", "vision"} ==>
        (key in caps <==> key in had) && (key in had ==> caps[key] == had[key])
  {
  }

  /** The config an upgrade leaves. */
  lemma ConfigAfter(p: Provider)
    ensures CapabilitiesOf(NewConfig(p)) == NewCapabilities(p)
    ensures CAPABILITIES in NewConfig(p) && !NewConfig(p)[CAPABILITIES].Obj? <==> CapabilitiesUnusable(p)
    ensures Get(NewConfig(p), BASE_URL) == UrlAfter(p)
  {
    CapabilityAfter(p, Streaming);
    CapabilityAfter(p, Functions);
    CapabilityAfter(p, Vision);
    assert BASE_URL != CAPABILITIES by { assert BASE_URL[4] != CAPABILITIES[4]; }
    var had := CapabilitiesOf(StoredConfig(p));
    if key :| key in had {
      assert key in NewCapabilities(p);
    }
  }

  /** What the three flags are read as on the way down. */
  lemma FlagsRead(p: Provider, c: Column)
    requires c in FLAG_COLUMNS
    ensures var caps := CapabilitiesOf(StoredConfig(p)); var r := FlagFrom(NewCapabilities(p), c);
      && (r.Ok? <==> Readable(caps, c))
      && (r.Ok? ==> (AsFlag(r.value).Ok? <==> Bindable(caps, c)))
      && (FlagKept(p, c) <==> r.Ok? && AsFlag(r.value) == Ok(Value(p, c)))
  {
    hide NewCapabilities, ParseBool;
    CapabilityAfter(p, c);
  }

  /** The row after the round trip, in terms of what was read. */
  lemma RoundTripRow(p: Provider)
    ensures var caps := NewCapabilities(p);
      var s, f, v := FlagFrom(caps, Streaming), FlagFrom(caps, Functions), FlagFrom(caps, Vision);
      && (CapabilitiesUnusable(p) || s.Err? || f.Err? || v.Err? <==> RoundTrip(p) == Err(AttributeError))
      && (RoundTrip(p) != Err(AttributeError) ==>
            && s.Ok? && f.Ok? && v.Ok?
            && var stored := Stored(Widened(UpgradedRow(p)), UrlAfter(p), s.value, f.value, v.value);
            && (stored.Ok? <==> RoundTrip(p).Ok?)
            && (stored.Ok? ==> forall c :: Value(RoundTrip(p).value, c) == Value(stored.value, c)))
  {
    hide NewConfig, NewCapabilities, AsFlag, AsText;
    ConfigAfter(p);
    assert AsFlag(Null) == Ok(Null) && AsText(Null) == Ok(Null) by { NullsBind(); }
  }

  lemma NullsBind()
    ensures AsFlag(Null) == Ok(Null) && AsText(Null) == Ok(Null)
  {
  }

  /** The downgrade of an upgraded row raises in Python exactly when the stored capabilities were not
    * an object and no flag replaced them, or one of the three capabilities was not an object; it
    * fails at all exactly when it raises, or one of their values cannot be bound to a boolean column,
    * or the base URL cannot be bound to a text column. */
  lemma DowngradeFailsIff(p: Provider)
    ensures RoundTrip(p) == Err(AttributeError) <==>
              || CapabilitiesUnusable(p)
              || exists c :: c in FLAG_COLUMNS && !Readable(CapabilitiesOf(StoredConfig(p)), c)
    ensures RoundTrip(p).Err? <==>
              || RoundTrip(p) == Err(AttributeError)
              || (exists c :: c in FLAG_COLUMNS && !Bindable(CapabilitiesOf(StoredConfig(p)), c))
              || AsText(UrlAfter(p)).Err?
  {
    hide RoundTrip, NewCapabilities, CapabilitiesUnusable, CapabilitiesOf, UrlAfter, AsText, AsFlag, FlagFrom,
         Readable, Bindable, Widened, UpgradedRow;
    RoundTripRow(p);
    FlagsRead(p, Streaming);
    FlagsRead(p, Functions);
    FlagsRead(p, Vision);
  }

  /** A row whose flag is stored as an object passes the upgrade and fails the downgrade. */
  lemma NestedValueFails()
    ensures var caps: Object := map["streaming" := Obj(map["value" := Obj(map[])])];
      RoundTrip(Provider(Some(map[CAPABILITIES := Obj(caps)]), map[])) == Err(BindError)
  {
    var caps: Object := map["streaming" := Obj(map["value" := Obj(map[])])];
    var p := Provider(Some(map[CAPABILITIES := Obj(caps)]), map[]);
    assert CapabilitiesOf(StoredConfig(p)) == caps;
    assert CapabilityKey(Functions) !in caps && CapabilityKey(Vision) !in caps;
    assert !Bindable(caps, Streaming);
    hide RoundTrip;
    DowngradeFailsIff(p);
  }

  /** A flag comes back when it was NULL or a boolean, or when the config already said the same. */
  predicate FlagKept(p: Provider, c: Column) {
    var caps := CapabilitiesOf(StoredConfig(p));
    if CapabilityKey(c) !in caps then Value(p, c).Null? || Value(p, c).Bool?
    else caps[CapabilityKey(c)].Obj? && AsFlag(Get(caps[CapabilityKey(c)].fields, "value")) == Ok(Value(p, c))
  }

  /** The endpoint comes back when the config's base URL did not stand in its way. */
  predicate EndpointKept(p: Provider) {
    var e, u := Value(p, Endpoint), Get(StoredConfig(p), BASE_URL);
    if Truthy(e) && !Truthy(u) then e.Str? else AsText(u) == Ok(e)
  }

  ghost predicate SameColumns(p: Provider, q: Provider) {
    forall c :: Value(p, c) == Value(q, c)
  }

  lemma ColumnIsOne(c: Column)
    ensures c == Endpoint || c in FLAG_COLUMNS
  {
    match c case Endpoint => case Streaming => case Functions => case Vision =>
  }

  lemma EndpointBack(p: Provider)
    ensures AsText(UrlAfter(p)) == Ok(Value(p, Endpoint)) <==> EndpointKept(p)
  {
  }

  /** Exactly when an upgrade followed by a downgrade gives every column its value back. */
  lemma ColumnsRestoredIff(p: Provider)
    ensures RoundTrip(p).Ok? && SameColumns(RoundTrip(p).value, p) <==>
        && !CapabilitiesUnusable(p)
        && EndpointKept(p)
        && forall c :: c in FLAG_COLUMNS ==> FlagKept(p, c)
  {
    EndpointBack(p);
    hide RoundTrip, NewCapabilities, CapabilitiesUnusable, CapabilitiesOf, UrlAfter, AsText, AsFlag, FlagFrom,
         Readable, Bindable, Widened, UpgradedRow, FlagKept, EndpointKept, StoredConfig, Get, Truthy;
    RoundTripRow(p);
    FlagsRead(p, Streaming);
    FlagsRead(p, Functions);
    FlagsRead(p, Vision);
    forall c ensures c == Endpoint || c in FLAG_COLUMNS { ColumnIsOne(c); }
    if RoundTrip(p).Ok? {
      var q := RoundTrip(p).value;
      assert Value(q, Endpoint) == AsText(UrlAfter(p)).value;
      forall c | c in FLAG_COLUMNS ensures Value(q, c) == Value(p, c) <==> FlagKept(p, c) {
        ColumnIsOne(c);
      }
    }
  }

  /** Nothing the config held is lost: the upgrade overwrites only an empty base URL and
    * capabilities that were not an object. */
  lemma ConfigIsKept(p: Provider, key: string)
    requires key in StoredConfig(p)
    ensures key in NewConfig(p)
    ensures key != BASE_URL && key != CAPABILITIES ==> NewConfig(p)[key] == StoredConfig(p)[key]
    ensures key == BASE_URL && Truthy(StoredConfig(p)[key]) ==> NewConfig(p)[key] == StoredConfig(p)[key]
    ensures key == CAPABILITIES && StoredConfig(p)[key].Obj? ==>
      NewConfig(p)[key].Obj?
      && forall k :: k in StoredConfig(p)[key].fields ==>
           k in NewConfig(p)[key].fields && NewConfig(p)[key].fields[k] == StoredConfig(p)[key].fields[k]
  {
  }

  /** Binding the base URL to the text column turned a false value into a text. */
  predicate UrlRespelled(p: Provider) {
    !Truthy(UrlAfter(p)) && AsText(UrlAfter(p)).Ok? && Truthy(AsText(UrlAfter(p)).value)
  }

  /** Upgrading again after a downgrade reaches the same config, unless the base URL it left was false,
    * a zero or an empty array: that comes back as a text. */
  lemma ConfigIsStableIff(p: Provider)
    requires RoundTrip(p).Ok?
    ensures NewConfig(RoundTrip(p).value) == NewConfig(p) <==> !UrlRespelled(p)
  {
    var q := RoundTrip(p).value;
    QuietCapabilities(p);
    RoundTripRow(p);
    ConfigAfter(p);
    hide AsText, AsFlag, NewCapabilities, RoundTrip;
    assert Value(q, Endpoint) == AsText(UrlAfter(p)).value;
    if UrlRespelled(p) { NotAFalseText(UrlAfter(p)); }
  }

  lemma NotAFalseText(v: Json)
    requires AsText(v).Ok? && !Truthy(v) && Truthy(AsText(v).value)
    ensures AsText(v).value != v
  {
  }

  /** The downgraded row adds no capability. */
  lemma QuietCapabilities(p: Provider)
    requires RoundTrip(p).Ok?
    ensures NewCapabilities(RoundTrip(p).value) == NewCapabilities(p)
    ensures StoredConfig(RoundTrip(p).value) == NewConfig(p)
  {
    hide AsText;
    CapabilityAfter(p, Streaming);
    CapabilityAfter(p, Functions);
    CapabilityAfter(p, Vision);
    ConfigAfter(p);
  }
}
