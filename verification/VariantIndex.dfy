/**
  * Migration r009_0001: message variants that share (parent, variant_index) are renumbered so that
  * a unique index can be built.
  */
module VariantIndex {
  import opened Wrappers

  type Id = nat     // the primary key, in its sort order

  datatype Message = Message(parent: Option<Id>, variant: Option<int>, createdAt: int)

  type Messages = map<Id, Message>

  /** Rows the unique index looks at: NULLs never conflict. */
  predicate Indexed(ms: Messages, id: Id) {
    id in ms && ms[id].parent.Some? && ms[id].variant.Some?
  }

  predicate SamePair(ms: Messages, a: Id, b: Id)
    requires Indexed(ms, a) && Indexed(ms, b)
  {
    ms[a].parent == ms[b].parent && ms[a].variant == ms[b].variant
  }

  /** The variants of one parent that have an index. */
  function Group(ms: Messages, parent: Id): set<Id> {
    set id | id in ms && Indexed(ms, id) && ms[id].parent.value == parent
  }

  /** GROUP BY parent, variant HAVING COUNT(*) > 1, then the distinct parents. */
  predicate Affected(ms: Messages, parent: Id) {
    exists a, b :: a in Group(ms, parent) && b in Group(ms, parent) && a != b && ms[a].variant == ms[b].variant
  }

  /** ORDER BY created_at, id. */
  predicate Precedes(ms: Messages, a: Id, b: Id)
    requires a in ms && b in ms
  {
    ms[a].createdAt < ms[b].createdAt || (ms[a].createdAt == ms[b].createdAt && a < b)
  }

  /** ROW_NUMBER() OVER (PARTITION BY parent ORDER BY created_at, id) - 1. */
  function Rank(ms: Messages, g: set<Id>, id: Id): nat
    requires g <= ms.Keys && id in ms
  {
    |Before(ms, g, id)|
  }

  function Before(ms: Messages, g: set<Id>, id: Id): set<Id>
    requires g <= ms.Keys && id in ms
  {
    set x | x in g && Precedes(ms, x, id)
  }

  predicate ToRenumber(ms: Messages, id: Id) {
    Indexed(ms, id) && Affected(ms, ms[id].parent.value)
  }

  /** The UPDATE: all new values are computed from the old table. */
  function Renumbered(ms: Messages): Messages {
    map id | id in ms ::
      if ToRenumber(ms, id)
      then ms[id].(variant := Some(Rank(ms, Group(ms, ms[id].parent.value), id)))
      else ms[id]
  }

  /** CREATE UNIQUE INDEX succeeds on this table. */
  ghost predicate Unique(ms: Messages) {
    forall a, b :: Indexed(ms, a) && Indexed(ms, b) && a != b ==> !SamePair(ms, a, b)
  }

  datatype Error = UniqueViolation

  class Database {
    var messages: Messages
    var indexed: bool

    constructor (ms: Messages)
      ensures messages == ms && !indexed
    {
      messages, indexed := ms, false;
    }

    /** CREATE UNIQUE INDEX IF NOT EXISTS. */
    method CreateUniqueIndex() returns (r: Result<(), Error>)
      modifies this
      ensures messages == old(messages)
      ensures r.Ok? <==> old(indexed) || Unique(messages)
      ensures indexed == (old(indexed) || r.Ok?)
    {
      if indexed { return Ok(()); }
      if exists a, b :: a in messages && b in messages && Indexed(messages, a) && Indexed(messages, b) && a != b
                        && SamePair(messages, a, b) {
        return Err(UniqueViolation);
      }
      indexed := true;
      return Ok(());
    }
  }

  // ---------------------------------------------------------------- ranks

  lemma BeforeGrows(ms: Messages, g: set<Id>, a: Id, b: Id)
    requires g <= ms.Keys && a in g && b in g && Precedes(ms, a, b)
    ensures Rank(ms, g, a) < Rank(ms, g, b)
  {
    var lo, hi := Before(ms, g, a), Before(ms, g, b);
    assert lo + {a} <= hi && a !in lo;
    SubsetSize(lo + {a}, hi);
  }

  lemma SubsetSize<T>(a: set<T>, b: set<T>)
    requires a <= b
    ensures |a| <= |b|
    ensures |a| == |b| ==> a == b
  {
    assert b == a + (b - a);
    assert |b| == |a| + |b - a|;
  }

  lemma RankBelowSize(ms: Messages, g: set<Id>, id: Id)
    requires g <= ms.Keys && id in g
    ensures Rank(ms, g, id) < |g|
  {
    assert id !in Before(ms, g, id);
    SubsetSize(Before(ms, g, id), g);
  }

  /** Ranks order the group as (created_at, id) does. */
  lemma RankOrders(ms: Messages, g: set<Id>, a: Id, b: Id)
    requires g <= ms.Keys && a in g && b in g
    ensures Rank(ms, g, a) < Rank(ms, g, b) <==> Precedes(ms, a, b)
    ensures Rank(ms, g, a) == Rank(ms, g, b) <==> a == b
  {
    if Precedes(ms, a, b) { BeforeGrows(ms, g, a, b); }
    if Precedes(ms, b, a) { BeforeGrows(ms, g, b, a); }
  }

  function UpTo(n: nat): (s: set<nat>)
    ensures |s| == n && forall k: nat :: k in s <==> k < n
  {
    if n == 0 then {} else
      var before := UpTo(n - 1);
      assert (n - 1) as nat !in before;
      before + {n - 1}
  }

  function Ranks(ms: Messages, g: set<Id>, part: set<Id>): set<nat>
    requires part <= g <= ms.Keys
  {
    set id | id in part :: Rank(ms, g, id)
  }

  lemma {:induction false} RanksSize(ms: Messages, g: set<Id>, part: set<Id>)
    requires part <= g <= ms.Keys
    ensures |Ranks(ms, g, part)| == |part|
    decreases |part|
  {
    if part != {} {
      var x :| x in part;
      var rest := part - {x};
      RanksSize(ms, g, rest);
      forall y | y in rest ensures Rank(ms, g, y) != Rank(ms, g, x) {
        RankOrders(ms, g, x, y);
      }
      assert Ranks(ms, g, part) == Ranks(ms, g, rest) + {Rank(ms, g, x)};
    }
  }

  /** A group of n is numbered exactly 0..n-1. */
  lemma RanksAreDense(ms: Messages, g: set<Id>)
    requires g <= ms.Keys
    ensures Ranks(ms, g, g) == UpTo(|g|)
  {
    forall id | id in g ensures Rank(ms, g, id) < |g| {
      RankBelowSize(ms, g, id);
    }
    RanksSize(ms, g, g);
    SubsetSize(Ranks(ms, g, g), UpTo(|g|));
  }

  // ---------------------------------------------------------------- what the update achieves

  /** Rows with a NULL, and groups without a conflict, keep their numbers; nothing but the number of
    * any row changes. */
  lemma OnlyConflictsChange(ms: Messages, id: Id)
    requires id in ms
    ensures var after := Renumbered(ms);
      && after.Keys == ms.Keys
      && after[id].(variant := None) == ms[id].(variant := None)
      && (!(ms[id].parent.Some? && ms[id].variant.Some? && Affected(ms, ms[id].parent.value)) ==> after[id] == ms[id])
  {
  }

  /** Who takes part: the group of a parent is its variants with a number, and it is in conflict if two
    * of them have the same.  Older messages come first, and of two as old the one with the smaller id. */
  lemma GroupsAre(ms: Messages, parent: Id, id: Id)
    ensures id in Group(ms, parent) <==> id in ms && ms[id].parent == Some(parent) && ms[id].variant.Some?
    ensures Affected(ms, parent) <==>
            exists a, b :: a in ms && b in ms && a != b && ms[a].parent == Some(parent) && ms[b].parent == Some(parent)
                           && ms[a].variant.Some? && ms[a].variant == ms[b].variant
    ensures forall a, b :: a in ms && b in ms && a != b ==>
              (Precedes(ms, a, b) <==> ms[a].createdAt < ms[b].createdAt || (ms[a].createdAt == ms[b].createdAt && a < b))
  {
    if a, b :| a in ms && b in ms && a != b && ms[a].parent == Some(parent) && ms[b].parent == Some(parent)
               && ms[a].variant.Some? && ms[a].variant == ms[b].variant {
      assert a in Group(ms, parent) && b in Group(ms, parent);
    }
  }

  /** Some message of the group carries the number k. */
  predicate Taken(ms: Messages, g: set<Id>, k: int) {
    exists id :: id in g && id in ms && ms[id].variant == Some(k)
  }

  lemma NewNumber(ms: Messages, parent: Id, id: Id)
    requires Affected(ms, parent) && id in Group(ms, parent)
    ensures Renumbered(ms)[id].variant == Some(Rank(ms, Group(ms, parent), id))
  {
  }

  /** Each conflicting group is numbered 0..n-1, in (created_at, id) order. */
  lemma ConflictingGroupsAreNumbered(ms: Messages, parent: Id)
    requires Affected(ms, parent)
    ensures var g, after := Group(ms, parent), Renumbered(ms);
      && (forall id :: id in g ==> after[id].variant.Some?)
      && (forall k: int :: Taken(after, g, k) <==> 0 <= k < |g|)
      && (forall a, b :: a in g && b in g ==>
            (after[a].variant.value < after[b].variant.value <==> Precedes(ms, a, b)))
  {
    var g, after := Group(ms, parent), Renumbered(ms);
    RanksAreDense(ms, g);
    forall id | id in g ensures after[id].variant == Some(Rank(ms, g, id)) && Rank(ms, g, id) < |g| {
      NewNumber(ms, parent, id);
      RankBelowSize(ms, g, id);
    }
    hide Renumbered, Rank, Precedes, Affected, Group;
    forall k: int ensures Taken(after, g, k) <==> 0 <= k < |g| {
      if 0 <= k < |g| {
        assert k in Ranks(ms, g, g);
        var id :| id in g && Rank(ms, g, id) == k;
        assert after[id].variant == Some(k);
      }
    }
    forall a, b | a in g && b in g
      ensures after[a].variant.value < after[b].variant.value <==> Precedes(ms, a, b)
    {
      RankOrders(ms, g, a, b);
    }
  }

  /** Afterwards no two messages share a non-null (parent, variant_index). */
  lemma RenumberedIsUnique(ms: Messages)
    ensures Unique(Renumbered(ms))
  {
    var after := Renumbered(ms);
    forall a, b | Indexed(after, a) && Indexed(after, b) && a != b ensures !SamePair(after, a, b) {
      if ms[a].parent == ms[b].parent {
        var g := Group(ms, ms[a].parent.value);
        assert a in g && b in g;
        if Affected(ms, ms[a].parent.value) {
          RankOrders(ms, g, a, b);
        }
      }
    }
  }

  /** The migration: it always succeeds, numbers as specified, and leaves the index in place. */
  method Upgrade(db: Database) returns (r: Result<(), Error>)
    requires db.indexed ==> Unique(db.messages)
    modifies db
    ensures r.Ok? && db.indexed && Unique(db.messages)
    ensures db.messages == Renumbered(old(db.messages))
  {
    RenumberedIsUnique(db.messages);
    db.messages := Renumbered(db.messages);
    r := db.CreateUniqueIndex();
  }

  /** A table without conflicts is left alone; so a second run changes nothing. */
  lemma UniqueTablesAreUnchanged(ms: Messages)
    requires Unique(ms)
    ensures Renumbered(ms) == ms
  {
    forall parent ensures !Affected(ms, parent) {
      forall a, b | a in Group(ms, parent) && b in Group(ms, parent) && a != b
        ensures ms[a].variant != ms[b].variant
      {
        assert !SamePair(ms, a, b);
      }
    }
  }

  lemma RerunIsNoOp(ms: Messages)
    ensures Renumbered(Renumbered(ms)) == Renumbered(ms)
  {
    RenumberedIsUnique(ms);
    UniqueTablesAreUnchanged(Renumbered(ms));
  }
}
