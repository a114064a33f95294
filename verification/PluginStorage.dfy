/**
  * Migration 005: entries that plugins kept in agent_memory under prefixed keys move to
  * plugin_storage, and back on downgrade.
  */
module PluginStorage {
  import opened Wrappers

  type RowId = string

  datatype Memory = Memory(user: string, agentKey: string, key: string, value: string, createdAt: int, updatedAt: int)

  datatype Stored = Stored(user: string, plugin: string, namespace: string, key: string,
                           value: string, createdAt: int, updatedAt: int)

  type MemoryTable = map<RowId, Memory>
  type StorageTable = map<RowId, Stored>     // scope is 'user' throughout

  datatype Error = DuplicateKey

  // ---------------------------------------------------------------- prefixes

  datatype Family = ToolStorage | ToolSecret | PluginSecret

  function Prefix(f: Family): string {
    match f
    case ToolStorage => "tool_storage:"
    case ToolSecret => "tool_secret:"
    case PluginSecret => "plugin_secret:"
  }

  /** s LIKE prefix || '%': an underscore in the pattern matches any character. */
  predicate Like(s: string, prefix: string) {
    |s| >= |prefix| && forall i :: 0 <= i < |prefix| ==> prefix[i] == '_' || s[i] == prefix[i]
  }

  predicate Of(m: Memory, f: Family) {
    Like(m.agentKey, Prefix(f))
  }

  /** No row is selected by two of the inserts. */
  lemma FamiliesDisjoint(m: Memory, f: Family, g: Family)
    requires Of(m, f) && Of(m, g)
    ensures f == g
  {
    var s := m.agentKey;
    assert Of(m, ToolStorage) ==> Prefix(ToolStorage)[0] == 't' && s[0] == 't' && Prefix(ToolStorage)[6] == 't' && s[6] == 't';
    assert Of(m, ToolSecret) ==> Prefix(ToolSecret)[0] == 't' && s[0] == 't' && Prefix(ToolSecret)[6] == 'e' && s[6] == 'e';
    assert Of(m, PluginSecret) ==> Prefix(PluginSecret)[0] == 'p' && s[0] == 'p';
  }

  predicate Migrates(m: Memory) {
    Of(m, ToolStorage) || Of(m, ToolSecret) || Of(m, PluginSecret)
  }

  function FamilyOf(m: Memory): (f: Family)
    requires Migrates(m)
    ensures Of(m, f)
  {
    if Of(m, ToolStorage) then ToolStorage else if Of(m, ToolSecret) then ToolSecret else PluginSecret
  }

  const CURSOR := "cursor:"

  predicate StartsWith(s: string, prefix: string) {
    |s| >= |prefix| && s[..|prefix|] == prefix
  }

  /** The SELECT lists of the three inserts: the prefix is cut by length, and a key under "cursor:"
    * moves to the cursor namespace. */
  function Target(m: Memory): Stored
    requires Migrates(m)
  {
    var f := FamilyOf(m);
    var plugin := m.agentKey[|Prefix(f)|..];
    if f != ToolStorage then Stored(m.user, plugin, "secret", m.key, m.value, m.createdAt, m.updatedAt)
    else if StartsWith(m.key, CURSOR)
    then Stored(m.user, plugin, "cursor", m.key[|CURSOR|..], m.value, m.createdAt, m.updatedAt)
    else Stored(m.user, plugin, "storage", m.key, m.value, m.createdAt, m.updatedAt)
  }

  /** Which entries move: those whose agent key begins with one of three prefixes, in which any
    * character may stand for the underscore. */
  lemma MigratesIff(m: Memory)
    ensures var s := m.agentKey;
      Migrates(m) <==> Spelled(s, "tool", "storage:") || Spelled(s, "tool", "secret:") || Spelled(s, "plugin", "secret:")
  {
    PrefixParts();
    hide *;
    LikeIff(m.agentKey, "tool", "storage:", Prefix(ToolStorage));
    LikeIff(m.agentKey, "tool", "secret:", Prefix(ToolSecret));
    LikeIff(m.agentKey, "plugin", "secret:", Prefix(PluginSecret));
    assert Migrates(m) <==>
           Like(m.agentKey, Prefix(ToolStorage)) || Like(m.agentKey, Prefix(ToolSecret)) || Like(m.agentKey, Prefix(PluginSecret))
      by { ByPrefix(m); }
  }

  lemma ByPrefix(m: Memory)
    ensures Migrates(m) <==>
            Like(m.agentKey, Prefix(ToolStorage)) || Like(m.agentKey, Prefix(ToolSecret)) || Like(m.agentKey, Prefix(PluginSecret))
  {
    hide Like, Prefix;
  }

  lemma PrefixParts()
    ensures Prefix(ToolStorage) == "tool" + "_" + "storage:" && Prefix(ToolSecret) == "tool" + "_" + "secret:"
    ensures Prefix(PluginSecret) == "plugin" + "_" + "secret:"
  {
  }

  /** The text begins with `front`, any one character, and `back`. */
  ghost predicate Spelled(s: string, front: string, back: string) {
    exists c, rest :: s == front + [c] + back + rest
  }

  lemma LikeIff(s: string, front: string, back: string, pattern: string)
    requires pattern == front + "_" + back && '_' !in front && '_' !in back
    ensures Like(s, pattern) <==> Spelled(s, front, back)
  {
    var n := |front|;
    assert forall i :: 0 <= i < |pattern| ==>
      pattern[i] == if i < n then front[i] else if i == n then '_' else back[i - n - 1];
    if Like(s, pattern) {
      forall i | 0 <= i < |pattern| && i != n ensures s[i] == pattern[i] {
        assert pattern[i] != '_';
      }
      assert s == front + [s[n]] + back + s[|pattern|..];
    }
    if c, rest :| s == front + [c] + back + rest {
      forall i | 0 <= i < |pattern| ensures pattern[i] == '_' || s[i] == pattern[i] {
      }
    }
  }

  /** Where an entry goes: a stored value to the namespace "storage", or to "cursor" without the "cursor:"
    * in front of its key; a secret, of either kind, to "secret".  The rest stays as it is. */
  lemma StorageTarget(m: Memory, c: char, plugin: string)
    requires m.agentKey == "tool" + [c] + "storage:" + plugin
    ensures Migrates(m)
    ensures !("cursor:" <= m.key) ==>
              Target(m) == Stored(m.user, plugin, "storage", m.key, m.value, m.createdAt, m.updatedAt)
    ensures forall key :: m.key == "cursor:" + key ==>
              Target(m) == Stored(m.user, plugin, "cursor", key, m.value, m.createdAt, m.updatedAt)
  {
    assert Spelled(m.agentKey, "tool", "storage:");
    MigratesIff(m);
    assert m.agentKey[13..] == plugin && m.agentKey[0] == 't' && m.agentKey[6] == 't';
    FamilyByLetters(m, FamilyOf(m));
    assert forall key :: m.key == "cursor:" + key ==> m.key[..7] == "cursor:" && m.key[7..] == key;
    hide Migrates, FamilyOf, Spelled;
  }

  lemma SecretTarget(m: Memory, tool: bool, c: char, plugin: string)
    requires m.agentKey == (if tool then "tool" else "plugin") + [c] + "secret:" + plugin
    ensures Migrates(m) && Target(m) == Stored(m.user, plugin, "secret", m.key, m.value, m.createdAt, m.updatedAt)
  {
    assert Spelled(m.agentKey, if tool then "tool" else "plugin", "secret:");
    MigratesIff(m);
    if tool {
      assert m.agentKey[12..] == plugin && m.agentKey[0] == 't' && m.agentKey[6] == 'e';
    } else {
      assert m.agentKey[14..] == plugin && m.agentKey[0] == 'p';
    }
    FamilyByLetters(m, FamilyOf(m));
    hide Migrates, FamilyOf, Spelled;
  }

  lemma FamilyByLetters(m: Memory, f: Family)
    requires Of(m, f)
    ensures |m.agentKey| >= 12
    ensures f == if m.agentKey[0] == 'p' then PluginSecret else if m.agentKey[6] == 'e' then ToolSecret else ToolStorage
  {
    var p := Prefix(f);
    assert p[0] != '_' && m.agentKey[0] == p[0];
    assert f != PluginSecret ==> p[6] != '_' && m.agentKey[6] == p[6];
  }

  /** What the unique constraint of plugin_storage compares, and that of agent_memory. */
  function Slot(s: Stored): (string, string, string, string) {
    (s.user, s.plugin, s.namespace, s.key)
  }

  function Entry(m: Memory): (string, string, string) {
    (m.user, m.agentKey, m.key)
  }

  ghost predicate SlotsUnique(s: StorageTable) {
    forall a, b :: a in s && b in s && a != b ==> Slot(s[a]) != Slot(s[b])
  }

  ghost predicate EntriesUnique(m: MemoryTable) {
    forall a, b :: a in m && b in m && a != b ==> Entry(m[a]) != Entry(m[b])
  }

  class Database {
    var memory: MemoryTable
    var storage: StorageTable

    constructor (memory: MemoryTable, storage: StorageTable)
      ensures this.memory == memory && this.storage == storage
    {
      this.memory, this.storage := memory, storage;
    }
  }

  // ---------------------------------------------------------------- upgrade

  /** INSERT ... SELECT ... ON CONFLICT DO NOTHING over the given rows, in whatever order the server
    * takes them: what is there stays, what is added is a source row's target under its own id, and a
    * source row is left out only for a row that took its id or its slot. */
  ghost predicate Inserted(src: set<RowId>, memory: MemoryTable, before: StorageTable, after: StorageTable) {
    && (forall id :: id in src ==> id in memory && Migrates(memory[id]))
    && (forall id :: id in before ==> id in after && after[id] == before[id])
    && (forall id :: id in after && id !in before ==> id in src && after[id] == Target(memory[id]))
    && (forall id :: id in src ==> id in after || SlotTaken(after, Target(memory[id])))
    && (SlotsUnique(before) ==> SlotsUnique(after))
  }

  predicate SlotTaken(s: StorageTable, row: Stored) {
    exists id :: id in s && Slot(s[id]) == Slot(row)
  }

  function Sources(memory: MemoryTable, f: Family): set<RowId> {
    set id | id in memory && Of(memory[id], f)
  }

  lemma InsertedNothing(memory: MemoryTable, s: StorageTable)
    ensures Inserted({}, memory, s, s)
  {
  }

  lemma InsertedOne(src: set<RowId>, memory: MemoryTable, before: StorageTable, s: StorageTable, id: RowId)
    requires Inserted(src, memory, before, s) && id in memory && Migrates(memory[id])
    ensures var row := Target(memory[id]);
      Inserted(src + {id}, memory, before, if id in s || SlotTaken(s, row) then s else s[id := row])
  {
    hide Target, Migrates, Slot, SlotTaken, SlotsUnique;
    var row := Target(memory[id]);
    var next := if id in s || SlotTaken(s, row) then s else s[id := row];
    forall x | x in src + {id} ensures x in next || SlotTaken(next, Target(memory[x])) {
      if x in src && x !in s {
        assert SlotTaken(s, Target(memory[x]));
        StaysTaken(s, next, Target(memory[x]));
      } else if x == id && x !in next {
        assert SlotTaken(s, row);
      }
    }
    if SlotsUnique(before) { StaysUnique(s, id, row); }
  }

  lemma StaysTaken(s: StorageTable, next: StorageTable, row: Stored)
    requires SlotTaken(s, row) && forall id :: id in s ==> id in next && next[id] == s[id]
    ensures SlotTaken(next, row)
  {
    hide Slot;
    var y :| y in s && Slot(s[y]) == Slot(row);
    assert y in next && next[y] == s[y];
  }

  lemma StaysUnique(s: StorageTable, id: RowId, row: Stored)
    requires SlotsUnique(s)
    ensures SlotsUnique(if id in s || SlotTaken(s, row) then s else s[id := row])
  {
    hide Slot;
    if id !in s && !SlotTaken(s, row) {
      var next := s[id := row];
      forall a, b | a in next && b in next && a != b ensures Slot(next[a]) != Slot(next[b]) {
        if a == id { assert b in s && Slot(s[b]) != Slot(row); }
        if b == id { assert a in s && Slot(s[a]) != Slot(row); }
      }
    }
  }

  method InsertFamily(db: Database, f: Family)
    modifies db
    ensures db.memory == old(db.memory)
    ensures Inserted(Sources(db.memory, f), db.memory, old(db.storage), db.storage)
  {
    hide Inserted;
    var src := Sources(db.memory, f);
    var todo := src;
    InsertedNothing(db.memory, db.storage);
    assert src - todo == {};
    while todo != {}
      invariant todo <= src && db.memory == old(db.memory)
      invariant Inserted(src - todo, db.memory, old(db.storage), db.storage)
      decreases |todo|
    {
      var id :| id in todo;
      var row := Target(db.memory[id]);
      InsertedOne(src - todo, db.memory, old(db.storage), db.storage, id);
      if !(id in db.storage || SlotTaken(db.storage, row)) {
        db.storage := db.storage[id := row];
      }
      assert (src - todo) + {id} == src - (todo - {id});
      todo := todo - {id};
    }
    assert src - todo == src;
  }

  function MigratingIds(memory: MemoryTable): set<RowId> {
    set id | id in memory && Migrates(memory[id])
  }

  /** Part 3 of the upgrade: three inserts, tool_secret before plugin_secret, then the delete. */
  method Upgrade(db: Database) returns (ghost s1: StorageTable, ghost s2: StorageTable)
    modifies db
    ensures db.memory == old(db.memory) - MigratingIds(old(db.memory))
    ensures UpgradeSteps(old(db.memory), old(db.storage), s1, s2, db.storage)
  {
    hide Inserted;
    InsertFamily(db, ToolStorage);
    s1 := db.storage;
    InsertFamily(db, ToolSecret);
    s2 := db.storage;
    InsertFamily(db, PluginSecret);
    db.memory := db.memory - MigratingIds(db.memory);
  }

  ghost predicate UpgradeSteps(m: MemoryTable, s0: StorageTable, s1: StorageTable, s2: StorageTable, s3: StorageTable) {
    && Inserted(Sources(m, ToolStorage), m, s0, s1)
    && Inserted(Sources(m, ToolSecret), m, s1, s2)
    && Inserted(Sources(m, PluginSecret), m, s2, s3)
  }

  /** Into an empty table: one row for each (user, plugin, namespace, key) that a migrating entry
    * asks for, taken from such an entry. */
  lemma OneRowPerSlot(m: MemoryTable, s1: StorageTable, s2: StorageTable, s: StorageTable)
    requires UpgradeSteps(m, map[], s1, s2, s)
    ensures SlotsUnique(s)
    ensures forall id :: id in s ==> id in MigratingIds(m) && s[id] == Target(m[id])
    ensures forall id :: id in MigratingIds(m) ==> SlotTaken(s, Target(m[id]))
  {
    hide Target, Slot, Of, SlotTaken;
    forall id | id in MigratingIds(m) ensures SlotTaken(s, Target(m[id])) {
      SlotIsTaken(m, s1, s2, s, id);
    }
  }

  lemma SlotIsTaken(m: MemoryTable, s1: StorageTable, s2: StorageTable, s: StorageTable, id: RowId)
    requires UpgradeSteps(m, map[], s1, s2, s) && id in MigratingIds(m)
    ensures SlotTaken(s, Target(m[id]))
  {
    var f := FamilyOf(m[id]);
    assert id in Sources(m, f);
    hide Target, Slot, Of, Sources, FamilyOf;
    var mid := if f == ToolStorage then s1 else if f == ToolSecret then s2 else s;
    assert id in mid || SlotTaken(mid, Target(m[id]));
    var y :| y in mid && Slot(mid[y]) == Slot(Target(m[id]));
    assert y in s && s[y] == mid[y];
  }

  /** When a tool_secret and a plugin_secret ask for the same slot, a tool_secret has it. */
  lemma ToolSecretWins(m: MemoryTable, s1: StorageTable, s2: StorageTable, s: StorageTable, tool: RowId, winner: RowId)
    requires UpgradeSteps(m, map[], s1, s2, s)
    requires tool in m && Of(m[tool], ToolSecret)
    requires winner in s && Slot(s[winner]) == Slot(Target(m[tool]))
    ensures winner in m && Of(m[winner], ToolSecret)
  {
    OneRowPerSlot(m, s1, s2, s);
    var holder := HolderAfterSecrets(m, s1, s2, s, tool);
    assert holder == winner;
    SecretNamespace(m[tool]);
    SecretNamespace(m[winner]);
    FamiliesDisjoint(m[tool], FamilyOf(m[tool]), ToolSecret);
    assert winner !in Sources(m, ToolStorage);
  }

  lemma SecretNamespace(m: Memory)
    requires Migrates(m)
    ensures Target(m).namespace == "secret" <==> !Of(m, ToolStorage)
  {
  }

  /** After the second insert somebody holds the slot of every tool_secret, for good. */
  lemma HolderAfterSecrets(m: MemoryTable, s1: StorageTable, s2: StorageTable, s: StorageTable, tool: RowId)
    returns (holder: RowId)
    requires UpgradeSteps(m, map[], s1, s2, s)
    requires tool in m && Of(m[tool], ToolSecret)
    ensures holder in s2 && holder in s && s[holder] == s2[holder] && Slot(s[holder]) == Slot(Target(m[tool]))
  {
    hide Of, Slot;
    assert tool in Sources(m, ToolSecret);
    if tool in s2 {
      holder := tool;
    } else {
      assert SlotTaken(s2, Target(m[tool]));
      holder :| holder in s2 && Slot(s2[holder]) == Slot(Target(m[tool]));
    }
  }

  // ---------------------------------------------------------------- downgrade

  /** The SELECT lists of the two inserts back; both secret prefixes come back as plugin_secret. */
  function Back(s: Stored): Memory {
    if s.namespace == "secret" then
      Memory(s.user, Prefix(PluginSecret) + s.plugin, s.key, s.value, s.createdAt, s.updatedAt)
    else
      Memory(s.user, Prefix(ToolStorage) + s.plugin, if s.namespace == "cursor" then CURSOR + s.key else s.key,
             s.value, s.createdAt, s.updatedAt)
  }

  predicate EntryTaken(m: MemoryTable, row: Memory) {
    exists id :: id in m && Entry(m[id]) == Entry(row)
  }

  function RowsBack(s: StorageTable): (rows: set<RowId>)
    ensures rows <= s.Keys
  {
    set id | id in s && s[id].namespace in {"storage", "cursor", "secret"}
  }

  /** Every stored row of the three namespaces comes back under its id, unless the id is taken. */
  function Restored(m: MemoryTable, s: StorageTable): MemoryTable {
    map id | id in m.Keys + RowsBack(s) :: if id in m then m[id] else Back(s[id])
  }

  /** Loop state of the downgrade: the rows handled so far agree with the goal. */
  ghost predicate Restoring(m: MemoryTable, s: StorageTable, done: set<RowId>, now: MemoryTable) {
    && done <= RowsBack(s) && EntriesUnique(now)
    && now.Keys == m.Keys + done
    && (forall id :: id in now ==> now[id] == Restored(m, s)[id])
  }

  lemma RestoringStarts(m: MemoryTable, s: StorageTable, none: set<RowId>)
    requires EntriesUnique(m) && none == {}
    ensures Restoring(m, s, none, m)
  {
  }

  lemma RestoringSkips(m: MemoryTable, s: StorageTable, done: set<RowId>, now: MemoryTable, id: RowId)
    requires Restoring(m, s, done, now) && id in RowsBack(s) && id in now
    ensures Restoring(m, s, done + {id}, now)
  {
  }

  lemma RestoringAdds(m: MemoryTable, s: StorageTable, done: set<RowId>, now: MemoryTable, id: RowId)
    requires Restoring(m, s, done, now) && id in RowsBack(s) && id !in now && !EntryTaken(now, Back(s[id]))
    ensures Restoring(m, s, done + {id}, now[id := Back(s[id])])
  {
    hide Entry, Back;
    var next := now[id := Back(s[id])];
    forall a, b | a in next && b in next && a != b ensures Entry(next[a]) != Entry(next[b]) {
      if a == id { assert b in now; }
      if b == id { assert a in now; }
    }
    assert Restored(m, s)[id] == Back(s[id]);
  }

  lemma RestoringClashes(m: MemoryTable, s: StorageTable, done: set<RowId>, now: MemoryTable, id: RowId)
    requires Restoring(m, s, done, now) && id in RowsBack(s) && id !in now && EntryTaken(now, Back(s[id]))
    ensures !EntriesUnique(Restored(m, s))
  {
    hide Entry, Back;
    var goal := Restored(m, s);
    var x :| x in now && Entry(now[x]) == Entry(Back(s[id]));
    assert x in goal && id in goal && x != id && Entry(goal[x]) == Entry(goal[id]);
  }

  /** INSERT ... ON CONFLICT (id) DO NOTHING, row by row: any other conflict is an error. */
  method RestoreRows(m: MemoryTable, s: StorageTable) returns (r: Result<MemoryTable, Error>)
    requires EntriesUnique(m)
    ensures r == if EntriesUnique(Restored(m, s)) then Ok(Restored(m, s)) else Err(DuplicateKey)
  {
    var rows := RowsBack(s);
    var now, done := m, {};
    RestoringStarts(m, s, done);
    hide Restoring, Restored, RowsBack, Back, EntriesUnique, EntryTaken;
    while done != rows
      invariant done <= rows && Restoring(m, s, done, now)
      decreases rows - done
    {
      assert rows == done + (rows - done);
      assert rows - done != {};
      var id :| id in rows - done;
      if id in now {
        RestoringSkips(m, s, done, now, id);
      } else if EntryTaken(now, Back(s[id])) {
        RestoringClashes(m, s, done, now, id);
        return Err(DuplicateKey);
      } else {
        RestoringAdds(m, s, done, now, id);
        now := now[id := Back(s[id])];
      }
      done := done + {id};
    }
    RestoringEnds(m, s, now);
    return Ok(now);
  }

  /** The downgrade, in one transaction; it ends by dropping plugin_storage. */
  method Downgrade(db: Database) returns (r: Result<(), Error>)
    requires EntriesUnique(db.memory)
    modifies db
    ensures r.Ok? <==> EntriesUnique(Restored(old(db.memory), old(db.storage)))
    ensures r.Ok? ==> db.memory == Restored(old(db.memory), old(db.storage)) && db.storage == map[]
    ensures r.Err? ==> db.memory == old(db.memory) && db.storage == old(db.storage)
  {
    hide Restored, EntriesUnique;
    var restored := RestoreRows(db.memory, db.storage);
    if restored.Err? { return Err(DuplicateKey); }
    db.memory, db.storage := restored.value, map[];
    return Ok(());
  }

  lemma RestoringEnds(m: MemoryTable, s: StorageTable, now: MemoryTable)
    requires Restoring(m, s, RowsBack(s), now)
    ensures EntriesUnique(now) && now == Restored(m, s)
  {
    assert now.Keys == Restored(m, s).Keys;
  }

  // ---------------------------------------------------------------- round trip

  /** The entry with its prefix spelled as the pattern spells it. */
  predicate Literal(m: Memory) {
    Migrates(m) ==> StartsWith(m.agentKey, Prefix(FamilyOf(m)))
  }

  /** tool_secret entries come back as plugin_secret entries. */
  function Renamed(m: Memory): Memory {
    if StartsWith(m.agentKey, Prefix(ToolSecret))
    then m.(agentKey := Prefix(PluginSecret) + m.agentKey[|Prefix(ToolSecret)|..])
    else m
  }

  function AllRenamed(m: MemoryTable): MemoryTable {
    map id | id in m :: Renamed(m[id])
  }

  /** No two migrating entries ask for one slot. */
  ghost predicate NoCollision(m: MemoryTable) {
    forall a, b :: a in MigratingIds(m) && b in MigratingIds(m) && a != b ==> Slot(Target(m[a])) != Slot(Target(m[b]))
  }

  lemma LiteralIsLike(s: string, prefix: string)
    requires StartsWith(s, prefix)
    ensures Like(s, prefix) && s == prefix + s[|prefix|..]
  {
    forall i | 0 <= i < |prefix| ensures s[i] == prefix[i] {
      assert s[..|prefix|][i] == prefix[i];
    }
  }

  /** One entry there and back: the same up to renaming, exactly when its prefix is literal. */
  lemma EntryRoundTrip(m: Memory)
    requires Migrates(m)
    ensures Back(Target(m)) == Renamed(m) <==> Literal(m)
  {
    var f := FamilyOf(m);
    var p := Prefix(f);
    assert StartsWith(m.key, CURSOR) ==> m.key == CURSOR + m.key[|CURSOR|..];
    if StartsWith(m.agentKey, Prefix(ToolSecret)) {
      LiteralIsLike(m.agentKey, Prefix(ToolSecret));
      FamiliesDisjoint(m, f, ToolSecret);
    } else if StartsWith(m.agentKey, p) {
      LiteralIsLike(m.agentKey, p);
    } else {
      assert Renamed(m) == m;
      if f == ToolSecret {
        assert (Prefix(PluginSecret) + m.agentKey[|p|..])[0] == 'p';
        assert p[0] == 't' && m.agentKey[0] == 't';
      } else {
        assert Back(Target(m)).agentKey == p + m.agentKey[|p|..];
        assert Back(Target(m)).agentKey[..|p|] == p;
      }
    }
  }

  lemma NamespacesCovered(m: Memory)
    requires Migrates(m)
    ensures Target(m).namespace in {"storage", "cursor", "secret"}
  {
  }

  /** Two slots come back as one entry only if they are one slot. */
  lemma BackInjective(a: Memory, b: Memory)
    requires Migrates(a) && Migrates(b) && Entry(Back(Target(a))) == Entry(Back(Target(b)))
    ensures Slot(Target(a)) == Slot(Target(b))
  {
    var s, t := Target(a), Target(b);
    assert Prefix(PluginSecret)[0] == 'p' && Prefix(ToolStorage)[0] == 't';
    assert Back(s).agentKey[0] == Back(t).agentKey[0];
    assert (s.namespace == "secret") == (t.namespace == "secret");
    var p := if s.namespace == "secret" then Prefix(PluginSecret) else Prefix(ToolStorage);
    assert Back(s).agentKey[|p|..] == s.plugin && Back(t).agentKey[|p|..] == t.plugin;
    if s.namespace == "cursor" { assert StartsWith(Back(s).key, CURSOR) && Back(s).key[|CURSOR|..] == s.key; }
    if t.namespace == "cursor" { assert StartsWith(Back(t).key, CURSOR) && Back(t).key[|CURSOR|..] == t.key; }
  }

  /** A restored entry carries a migrating prefix, so it meets no entry that never moved. */
  lemma BackMigrates(s: Stored)
    ensures Migrates(Back(s))
  {
    var p := if s.namespace == "secret" then Prefix(PluginSecret) else Prefix(ToolStorage);
    assert StartsWith(Back(s).agentKey, p);
    LiteralIsLike(Back(s).agentKey, p);
  }

  ghost predicate AllLiteral(m: MemoryTable) {
    forall id :: id in m ==> Literal(m[id])
  }

  lemma RestoredAfterUpgrade(m: MemoryTable, s1: StorageTable, s2: StorageTable, s: StorageTable, id: RowId)
    requires UpgradeSteps(m, map[], s1, s2, s)
    ensures var back := Restored(m - MigratingIds(m), s);
      && (id in back <==> id in m && (id in MigratingIds(m) ==> id in s))
      && (id in back ==> back[id] == if id in MigratingIds(m) then Back(Target(m[id])) else m[id])
  {
    OneRowPerSlot(m, s1, s2, s);
    if id in s { NamespacesCovered(m[id]); }
  }

  /** Downgrading right after the upgrade never violates the unique constraint. */
  lemma RestoredIsUnique(m: MemoryTable, s1: StorageTable, s2: StorageTable, s: StorageTable)
    requires EntriesUnique(m) && UpgradeSteps(m, map[], s1, s2, s)
    ensures EntriesUnique(Restored(m - MigratingIds(m), s))
  {
    hide Restored, UpgradeSteps, Back, Target;
    OneRowPerSlot(m, s1, s2, s);
    var back := Restored(m - MigratingIds(m), s);
    forall a, b | a in back && b in back && a != b ensures Entry(back[a]) != Entry(back[b]) {
      RestoredAfterUpgrade(m, s1, s2, s, a);
      RestoredAfterUpgrade(m, s1, s2, s, b);
      if a in MigratingIds(m) { BackMigrates(Target(m[a])); }
      if b in MigratingIds(m) { BackMigrates(Target(m[b])); }
      if a in MigratingIds(m) && b in MigratingIds(m) && Entry(back[a]) == Entry(back[b]) {
        BackInjective(m[a], m[b]);
      }
    }
  }

  /** Downgrade after upgrade restores every agent_memory row, up to renaming tool_secret to
    * plugin_secret, if and only if no two entries ask for one slot and every prefix is literal. */
  lemma RoundTripIff(m: MemoryTable, s1: StorageTable, s2: StorageTable, s: StorageTable)
    requires UpgradeSteps(m, map[], s1, s2, s)
    ensures Restored(m - MigratingIds(m), s) == AllRenamed(m) <==> NoCollision(m) && AllLiteral(m)
  {
    hide Restored, UpgradeSteps, Back, Target, Renamed, Literal;
    OneRowPerSlot(m, s1, s2, s);
    var back := Restored(m - MigratingIds(m), s);
    forall id ensures id in back <==> id in m && (id in MigratingIds(m) ==> id in s) {
      RestoredAfterUpgrade(m, s1, s2, s, id);
    }
    forall id | id in back ensures back[id] == Renamed(m[id]) <==> Literal(m[id]) {
      RestoredAfterUpgrade(m, s1, s2, s, id);
      if id in MigratingIds(m) { EntryRoundTrip(m[id]); } else { StayerIsLiteral(m[id]); }
    }
    if NoCollision(m) && AllLiteral(m) {
      forall id | id in MigratingIds(m) ensures id in s {
        var y :| y in s && Slot(s[y]) == Slot(Target(m[id]));
      }
      assert back.Keys == m.Keys;
    }
    if back == AllRenamed(m) {
      assert back.Keys == m.Keys;
      forall a, b | a in MigratingIds(m) && b in MigratingIds(m) && a != b
        ensures Slot(Target(m[a])) != Slot(Target(m[b]))
      {
        assert a in back && b in back;
        assert a in s && b in s;
      }
      forall id | id in m ensures Literal(m[id]) {
        assert back[id] == Renamed(m[id]);
      }
    }
  }

  lemma StayerIsLiteral(m: Memory)
    requires !Migrates(m)
    ensures Literal(m) && Renamed(m) == m
  {
    if StartsWith(m.agentKey, Prefix(ToolSecret)) {
      LiteralIsLike(m.agentKey, Prefix(ToolSecret));
      assert false;
    }
  }

  /** The underscore in LIKE is a wildcard: a key no plugin wrote is swept along and respelled. */
  lemma WildcardIsSweptAlong(m: Memory, plugin: string)
    requires m.agentKey == "tool-storage:" + plugin
    ensures Migrates(m) && Back(Target(m)).agentKey == "tool_storage:" + plugin
  {
    assert Of(m, ToolStorage) by {
      forall i | 0 <= i < 13 ensures "tool_storage:"[i] == '_' || m.agentKey[i] == "tool_storage:"[i] {
        assert m.agentKey[i] == "tool-storage:"[i];
      }
    }
    assert m.agentKey[13..] == plugin;
  }
}
