/**
  * Migration 009 converges: however often it is interrupted, and wherever, the run that completes
  * leaves the catalogue an uninterrupted run would have left.
  */
module TenantMigrationProofs {
  import opened Wrappers
  import opened TenantInventory
  import opened TenantMigration

  // ---------------------------------------------------------------- one key at a time

  /** What the events do to the entry of key k. */
  function Fold(c: Cell, es: seq<Event>, k: Key): Cell {
    if es == [] then c
    else
      var e, before := es[|es| - 1], Fold(c, es[..|es| - 1], k);
      if e.Commit? || e.key != k then before else StepCell(before, e.action)
  }

  lemma {:induction false} FoldIsExec(w: Work, es: seq<Event>, k: Key)
    ensures var r := ExecAll(w, es);
      CellOf(r.catalogue, r.building, k) == Fold(CellOf(w.catalogue, w.building, k), es, k)
    decreases |es|
  {
    if es != [] { FoldIsExec(w, es[..|es| - 1], k); }
  }

  lemma {:induction false} FoldAppend(c: Cell, xs: seq<Event>, ys: seq<Event>, k: Key)
    ensures Fold(c, xs + ys, k) == Fold(Fold(c, xs, k), ys, k)
    decreases |ys|
  {
    if ys == [] {
      assert xs + ys == xs;
    } else {
      assert (xs + ys)[..|xs + ys| - 1] == xs + ys[..|ys| - 1];
      FoldAppend(c, xs, ys[..|ys| - 1], k);
    }
  }

  predicate Avoids(es: seq<Event>, k: Key) {
    forall e :: e in es ==> e.Commit? || e.key != k
  }

  lemma {:induction false} FoldAvoided(c: Cell, es: seq<Event>, k: Key)
    requires Avoids(es, k)
    ensures Fold(c, es, k) == c
    decreases |es|
  {
    if es != [] { FoldAvoided(c, es[..|es| - 1], k); }
  }

  function CellIn(c: Catalogue, k: Key): Cell {
    CellOf(c, {}, k)
  }

  lemma SameCells(c: Catalogue, d: Catalogue)
    requires forall k :: CellIn(c, k).obj == CellIn(d, k).obj
    ensures c == d
  {
    assert forall k :: k in c <==> CellIn(c, k).obj.Some?;
    assert forall k :: k in d <==> CellIn(d, k).obj.Some?;
    assert forall k :: k in c ==> c[k] == CellIn(c, k).obj.value;
    assert forall k :: k in d ==> d[k] == CellIn(d, k).obj.value;
  }

  // ---------------------------------------------------------------- shape of the transactional part

  datatype Kind = Ensured | Validated | Swapped

  function KindOf(k: Key): Kind {
    match k
    case ConstraintKey(_, name) =>
      if name.TenantIdFk? || name.Tfk? then Validated else if name.PrimaryKey? then Swapped else Ensured
    case _ => Ensured
  }

  function SwapOf(t: Table): Action {
    if t == Table.SystemSettings then SwapPrimaryKey([TENANT_ID, Column.ItemKey], true) else SwapPrimaryKey([TENANT_ID], false)
  }

  predicate Fits(k: Key, a: Action) {
    match KindOf(k)
    case Ensured => a.CreateIfMissing? || a.Put? || a.DropIfExists?
    case Validated => a.CreateIfMissing? || a.MarkOk?
    case Swapped => k.ConstraintKey? && a == SwapOf(k.table)
  }

  predicate GoodAt(es: seq<Event>, i: nat)
    requires i < |es|
  {
    && es[i].Sql? && Fits(es[i].key, es[i].action)
    && (KindOf(es[i].key) == Validated && es[i].action.CreateIfMissing? ==>
          i + 1 < |es| && es[i + 1] == Sql(es[i].key, MarkOk))
  }

  /** Every statement suits the kind of its key, and a constraint added NOT VALID is validated by
    * the next statement. */
  ghost predicate WellFormed(es: seq<Event>) {
    forall i :: 0 <= i < |es| ==> GoodAt(es, i)
  }

  lemma WellFormedAppend(xs: seq<Event>, ys: seq<Event>)
    requires WellFormed(xs) && WellFormed(ys)
    ensures WellFormed(xs + ys)
  {
    forall i | 0 <= i < |xs + ys| ensures GoodAt(xs + ys, i) {
      if i < |xs| {
        assert GoodAt(xs, i);
      } else {
        assert GoodAt(ys, i - |xs|);
      }
    }
  }

  lemma {:induction false} LoopWellFormed(inv: Inventory, seed: Option<string>, p: Pass, n: nat)
    requires n <= Count(inv, p) && p != ConcurrentIndexes
    ensures WellFormed(Loop(inv, seed, p, n))
    decreases n
  {
    if n > 0 {
      LoopWellFormed(inv, seed, p, n - 1);
      WellFormedAppend(Loop(inv, seed, p, n - 1), Body(inv, seed, p, n - 1));
    }
  }

  ghost predicate SectionOk(section: Section) {
    match section
    case Once(es) => WellFormed(es)
    case ForEach(p) => p != ConcurrentIndexes
  }

  lemma {:induction false} SectionsWellFormed(inv: Inventory, seed: Option<string>, sections: seq<Section>)
    requires forall i :: 0 <= i < |sections| ==> SectionOk(sections[i])
    ensures WellFormed(AllEvents(inv, seed, sections))
    decreases |sections|
  {
    if sections != [] {
      var init, last := sections[..|sections| - 1], sections[|sections| - 1];
      SectionsWellFormed(inv, seed, init);
      if last.ForEach? { LoopWellFormed(inv, seed, last.pass, Count(inv, last.pass)); }
      WellFormedAppend(AllEvents(inv, seed, init), Events(inv, seed, last));
    }
  }

  lemma HeadStatementsWellFormed(seed: Option<string>)
    ensures WellFormed(SeedTenants(seed)) && WellFormed(SystemSettingsKey()) && WellFormed(PluginStorageKeys())
  {
  }

  lemma TailStatementsWellFormed()
    ensures WellFormed(LookupIndexes()) && WellFormed(TenantResolvers()) && WellFormed(BillingStateKeys())
  {
  }

  lemma PartsWellFormed(inv: Inventory, seed: Option<string>)
    ensures WellFormed(AllEvents(inv, seed, Part1(seed)))
    ensures WellFormed(AllEvents(inv, seed, Part2()))
    ensures WellFormed(AllEvents(inv, seed, Part1(seed)) + AllEvents(inv, seed, Part2()))
  {
    HeadStatementsWellFormed(seed);
    TailStatementsWellFormed();
    SectionsWellFormed(inv, seed, Part1(seed));
    SectionsWellFormed(inv, seed, Part2());
    WellFormedAppend(AllEvents(inv, seed, Part1(seed)), AllEvents(inv, seed, Part2()));
  }

  // ---------------------------------------------------------------- well-formed programs are idempotent

  ghost predicate Forgets(es: seq<Event>, k: Key) {
    forall c: Cell, d: Cell :: c.building == d.building ==> Fold(c, es, k) == Fold(d, es, k)
  }

  ghost predicate KeepsPresent(es: seq<Event>, k: Key) {
    forall c: Cell :: c.obj.Some? ==> Fold(c, es, k) == c
  }

  lemma {:induction false} EnsuredFold(es: seq<Event>, k: Key)
    requires forall i :: 0 <= i < |es| ==> es[i].Sql? && Fits(es[i].key, es[i].action)
    requires KindOf(k) == Ensured
    ensures Forgets(es, k) || KeepsPresent(es, k)
    ensures forall c: Cell :: Fold(c, es, k).building == c.building
    decreases |es|
  {
    if es != [] {
      var init, e := es[..|es| - 1], es[|es| - 1];
      EnsuredFold(init, k);
      assert Fits(e.key, e.action);
      if e.key != k || (e.action.CreateIfMissing? && Forgets(init, k)) {
        if Forgets(init, k) {
          forall c: Cell, d: Cell | c.building == d.building ensures Fold(c, es, k) == Fold(d, es, k) {
            assert Fold(c, init, k) == Fold(d, init, k);
          }
        } else {
          assert forall c: Cell :: c.obj.Some? ==> Fold(c, es, k) == Fold(c, init, k);
        }
      } else if e.action.CreateIfMissing? {
        forall c: Cell | c.obj.Some? ensures Fold(c, es, k) == c {
          assert Fold(c, init, k) == c;
        }
      } else {
        forall c: Cell, d: Cell | c.building == d.building ensures Fold(c, es, k) == Fold(d, es, k) {
          assert Fold(c, init, k).building == Fold(d, init, k).building;
        }
      }
    }
  }

  lemma {:induction false} SwappedFold(es: seq<Event>, k: Key, c: Cell)
    requires forall i :: 0 <= i < |es| ==> es[i].Sql? && Fits(es[i].key, es[i].action)
    requires KindOf(k) == Swapped && k.ConstraintKey?
    ensures Fold(c, es, k) == c || Fold(c, es, k) == StepCell(c, SwapOf(k.table))
    ensures Fold(StepCell(c, SwapOf(k.table)), es, k) == StepCell(c, SwapOf(k.table))
    decreases |es|
  {
    if es != [] {
      SwappedFold(es[..|es| - 1], k, c);
    }
  }

  lemma {:induction false} ValidatedFold(es: seq<Event>, n: nat, k: Key, c: Cell)
    requires WellFormed(es) && KindOf(k) == Validated && n <= |es|
    ensures var r := Fold(c, es[..n], k);
      && r.building == c.building
      && (c.obj.Some? ==> r.obj.Some?)
      && (c.obj.Some? && c.obj.value.ok ==> r == c)
      && (n == |es| || es[n] != Sql(k, MarkOk) ==>
            Avoids(es[..n], k) || r.obj.None? || r.obj.value.ok)
    decreases n
  {
    if n > 0 {
      assert es[..n][..n - 1] == es[..n - 1];
      ValidatedFold(es, n - 1, k, c);
      assert GoodAt(es, n - 1);
      assert forall e :: e in es[..n] <==> e in es[..n - 1] || e == es[n - 1];
    }
  }

  lemma IdempotentFold(es: seq<Event>, k: Key, c: Cell)
    requires WellFormed(es)
    ensures Fold(c, es, k).building == c.building
    ensures Fold(Fold(c, es, k), es, k) == Fold(c, es, k)
  {
    assert es[..|es|] == es;
    forall i | 0 <= i < |es| ensures es[i].Sql? && Fits(es[i].key, es[i].action) {
      assert GoodAt(es, i);
    }
    match KindOf(k) {
      case Ensured =>
        EnsuredFold(es, k);
      case Swapped =>
        SwappedFold(es, k, c);
        var swapped := StepCell(c, SwapOf(k.table));
        assert swapped.building == c.building;
      case Validated =>
        var r := Fold(c, es, k);
        ValidatedFold(es, |es|, k, c);
        ValidatedFold(es, |es|, k, r);
        if Avoids(es, k) {
          FoldAvoided(c, es, k);
        } else if r.obj.None? {
          assert c == r;
        }
    }
  }

  // ---------------------------------------------------------------- the autocommit block

  predicate IsLargeIndex(inv: Inventory, k: Key) {
    k.IndexKey? && k.index.TenantIdIndex? && k.index.table in inv.concurrent
  }

  /** Where a concurrent build takes an index entry: a valid one stays, anything else is rebuilt. */
  function Settled(o: Option<Object>): Object {
    if o.Some? && o.value.ok then o.value else PlainIndex([TENANT_ID])
  }

  /** All a killed build can leave: an entry with the same outcome on the next run. */
  ghost predicate SameOutcome(c: Cell, start: Option<Object>) {
    && Settled(c.obj) == Settled(start)
    && (c.building && c.obj.Some? ==> c.obj == Some(PlainIndex([TENANT_ID]).(ok := false)))
  }

  predicate ConcurrentEvents(es: seq<Event>) {
    forall e :: e in es ==>
      e.Auto? && (e.action == DropIfInvalid || e.action == BuildStart(PlainIndex([TENANT_ID])) || e.action == BuildFinish)
  }

  lemma {:induction false} PartialBuild(es: seq<Event>, k: Key, c: Cell)
    requires ConcurrentEvents(es) && !c.building
    ensures SameOutcome(Fold(c, es, k), c.obj)
    decreases |es|
  {
    if es != [] {
      PartialBuild(es[..|es| - 1], k, c);
    }
  }

  lemma {:induction false} LoopIsConcurrent(inv: Inventory, seed: Option<string>, n: nat)
    requires n <= |inv.concurrent|
    ensures ConcurrentEvents(Loop(inv, seed, ConcurrentIndexes, n))
    ensures forall k :: !IsLargeIndex(inv, k) ==> Avoids(Loop(inv, seed, ConcurrentIndexes, n), k)
    decreases n
  {
    if n > 0 { LoopIsConcurrent(inv, seed, n - 1); }
  }

  function FoldOne(c: Cell, e: Event, k: Key): Cell {
    if e.Commit? || e.key != k then c else StepCell(c, e.action)
  }

  lemma FoldThree(c: Cell, e0: Event, e1: Event, e2: Event, k: Key)
    ensures Fold(c, [e0, e1, e2], k) == FoldOne(FoldOne(FoldOne(c, e0, k), e1, k), e2, k)
  {
    assert [e0, e1, e2][..2] == [e0, e1] && [e0, e1][..1] == [e0] && [e0][..0] == [];
    assert Fold(c, [e0], k) == FoldOne(c, e0, k);
    assert Fold(c, [e0, e1], k) == FoldOne(FoldOne(c, e0, k), e1, k);
  }

  lemma BuildBody(inv: Inventory, seed: Option<string>, i: nat, t: Table, c: Cell)
    requires i < |inv.concurrent| && !c.building
    ensures Fold(c, Body(inv, seed, ConcurrentIndexes, i), IndexKey(TenantIdIndex(t))) ==
            if t == inv.concurrent[i] then Cell(Some(Settled(c.obj)), false) else c
  {
    var body := Body(inv, seed, ConcurrentIndexes, i);
    assert body == [body[0], body[1], body[2]];
    FoldThree(c, body[0], body[1], body[2], IndexKey(TenantIdIndex(t)));
    hide Fold;
  }

  lemma {:induction false} BuildsSettle(inv: Inventory, seed: Option<string>, n: nat, t: Table, c: Cell)
    requires n <= |inv.concurrent| && !c.building
    ensures var r := Fold(c, Loop(inv, seed, ConcurrentIndexes, n), IndexKey(TenantIdIndex(t)));
      r == if t in inv.concurrent[..n] then Cell(Some(Settled(c.obj)), false) else c
    decreases n
  {
    if n > 0 {
      var k := IndexKey(TenantIdIndex(t));
      hide Body, Fold, Settled;
      BuildsSettle(inv, seed, n - 1, t, c);
      FoldAppend(c, Loop(inv, seed, ConcurrentIndexes, n - 1), Body(inv, seed, ConcurrentIndexes, n - 1), k);
      BuildBody(inv, seed, n - 1, t, Fold(c, Loop(inv, seed, ConcurrentIndexes, n - 1), k));
      assert inv.concurrent[..n] == inv.concurrent[..n - 1] + [inv.concurrent[n - 1]];
    } else {
      assert Loop(inv, seed, ConcurrentIndexes, n) == [];
    }
  }

  lemma BodyAvoidsLarge(inv: Inventory, seed: Option<string>, p: Pass, i: nat, k: Key)
    requires Consistent(inv) && IsLargeIndex(inv, k) && p != ConcurrentIndexes && i < Count(inv, p)
    ensures Avoids(Body(inv, seed, p, i), k)
  {
  }

  lemma {:induction false} LoopAvoidsLarge(inv: Inventory, seed: Option<string>, p: Pass, n: nat, k: Key)
    requires Consistent(inv) && IsLargeIndex(inv, k) && p != ConcurrentIndexes && n <= Count(inv, p)
    ensures Avoids(Loop(inv, seed, p, n), k)
    decreases n
  {
    hide Body;
    if n > 0 {
      LoopAvoidsLarge(inv, seed, p, n - 1, k);
      BodyAvoidsLarge(inv, seed, p, n - 1, k);
    }
  }

  predicate OnceAvoidsLarge(section: Section) {
    match section
    case Once(es) => forall e :: e in es ==> e.Commit? || !(e.key.IndexKey? && e.key.index.TenantIdIndex?)
    case ForEach(p) => p != ConcurrentIndexes
  }

  lemma {:induction false} SectionsAvoidLarge(inv: Inventory, seed: Option<string>, sections: seq<Section>, k: Key)
    requires Consistent(inv) && IsLargeIndex(inv, k)
    requires forall i :: 0 <= i < |sections| ==> OnceAvoidsLarge(sections[i])
    ensures Avoids(AllEvents(inv, seed, sections), k)
    decreases |sections|
  {
    if sections != [] {
      var last := sections[|sections| - 1];
      SectionsAvoidLarge(inv, seed, sections[..|sections| - 1], k);
      if last.ForEach? { LoopAvoidsLarge(inv, seed, last.pass, Count(inv, last.pass), k); }
    }
  }

  lemma HeadStatementsAvoidLarge(seed: Option<string>)
    ensures OnceAvoidsLarge(Once(SeedTenants(seed)))
    ensures OnceAvoidsLarge(Once(SystemSettingsKey())) && OnceAvoidsLarge(Once(PluginStorageKeys()))
  {
  }

  lemma TailStatementsAvoidLarge()
    ensures OnceAvoidsLarge(Once(LookupIndexes())) && OnceAvoidsLarge(Once(TenantResolvers()))
    ensures OnceAvoidsLarge(Once(BillingStateKeys()))
  {
  }

  lemma Part1AvoidsLarge(inv: Inventory, seed: Option<string>, k: Key)
    requires Consistent(inv) && IsLargeIndex(inv, k)
    ensures Avoids(AllEvents(inv, seed, Part1(seed)), k)
  {
    hide Consistent, AllEvents, Avoids, SeedTenants, SystemSettingsKey, PluginStorageKeys;
    HeadStatementsAvoidLarge(seed);
    SectionsAvoidLarge(inv, seed, Part1(seed), k);
  }

  lemma Part2AvoidsLarge(inv: Inventory, seed: Option<string>, k: Key)
    requires Consistent(inv) && IsLargeIndex(inv, k)
    ensures Avoids(AllEvents(inv, seed, Part2()), k)
  {
    hide Consistent, AllEvents, Avoids, LookupIndexes, TenantResolvers, BillingStateKeys;
    TailStatementsAvoidLarge();
    SectionsAvoidLarge(inv, seed, Part2(), k);
  }

  lemma PartsAvoidLarge(inv: Inventory, seed: Option<string>, k: Key)
    requires Consistent(inv) && IsLargeIndex(inv, k)
    ensures Avoids(AllEvents(inv, seed, Part1(seed)), k) && Avoids(AllEvents(inv, seed, Part2()), k)
  {
    Part1AvoidsLarge(inv, seed, k);
    Part2AvoidsLarge(inv, seed, k);
  }

  // ---------------------------------------------------------------- commit points

  lemma {:induction false} AllEventsAppend(inv: Inventory, seed: Option<string>, xs: seq<Section>, ys: seq<Section>)
    ensures AllEvents(inv, seed, xs + ys) == AllEvents(inv, seed, xs) + AllEvents(inv, seed, ys)
    decreases |ys|
  {
    hide Events;
    if ys == [] {
      assert xs + ys == xs;
    } else {
      assert (xs + ys)[..|xs + ys| - 1] == xs + ys[..|ys| - 1];
      AllEventsAppend(inv, seed, xs, ys[..|ys| - 1]);
    }
  }

  function Block(inv: Inventory, seed: Option<string>): seq<Event> {
    Loop(inv, seed, ConcurrentIndexes, |inv.concurrent|)
  }

  lemma SectionsSplit(inv: Inventory, seed: Option<string>, p1: seq<Section>, p2: seq<Section>)
    ensures AllEvents(inv, seed, p1 + [Once([Commit]), ForEach(ConcurrentIndexes)] + p2 + [Once([Commit])]) ==
            AllEvents(inv, seed, p1) + [Commit] + Block(inv, seed) + AllEvents(inv, seed, p2) + [Commit]
  {
    assert Events(inv, seed, Once([Commit])) == [Commit];
    hide AllEvents, Events, Block;
    AllEventsSplit(inv, seed, p1, [Once([Commit]), ForEach(ConcurrentIndexes)], p2, [Once([Commit])]);
    AllEventsOne(inv, seed, Once([Commit]));
    MiddleEvents(inv, seed);
    var a, b := AllEvents(inv, seed, p1), Block(inv, seed);
    assert a + ([Commit] + b) == a + [Commit] + b;
  }

  lemma AllEventsSplit(inv: Inventory, seed: Option<string>, a: seq<Section>, b: seq<Section>,
                       c: seq<Section>, d: seq<Section>)
    ensures AllEvents(inv, seed, a + b + c + d) ==
            AllEvents(inv, seed, a) + AllEvents(inv, seed, b) + AllEvents(inv, seed, c) + AllEvents(inv, seed, d)
  {
    hide AllEvents;
    AllEventsAppend(inv, seed, a + b + c, d);
    AllEventsAppend(inv, seed, a + b, c);
    AllEventsAppend(inv, seed, a, b);
  }

  lemma MiddleEvents(inv: Inventory, seed: Option<string>)
    ensures AllEvents(inv, seed, [Once([Commit]), ForEach(ConcurrentIndexes)]) == [Commit] + Block(inv, seed)
  {
    var mid: seq<Section> := [Once([Commit]), ForEach(ConcurrentIndexes)];
    assert mid[..1] == [Once([Commit])];
    AllEventsOne(inv, seed, Once([Commit]));
  }

  lemma AllEventsOne(inv: Inventory, seed: Option<string>, section: Section)
    ensures AllEvents(inv, seed, [section]) == Events(inv, seed, section)
  {
    assert [section][..0] == [];
    assert AllEvents(inv, seed, []) == [];
  }

  lemma ProgramParts(inv: Inventory, seed: Option<string>)
    ensures Program(inv, seed) ==
            AllEvents(inv, seed, Part1(seed)) + [Commit] + Block(inv, seed) + AllEvents(inv, seed, Part2()) + [Commit]
  {
    SectionsSplit(inv, seed, Part1(seed), Part2());
  }

  lemma {:induction false} SqlTail(xs: seq<Event>, ys: seq<Event>)
    requires forall e :: e in ys ==> e.Sql?
    ensures CommittedPrefix(xs + ys) == CommittedPrefix(xs)
    decreases |ys|
  {
    if ys == [] {
      assert xs + ys == xs;
    } else {
      assert (xs + ys)[..|xs + ys| - 1] == xs + ys[..|ys| - 1];
      SqlTail(xs, ys[..|ys| - 1]);
    }
  }

  /** How much of the autocommit block an attempt of n events has run. */
  function BlockDone(part1: nat, block: nat, n: nat): (j: nat)
    ensures j <= block
  {
    if n <= part1 + 1 then 0 else if n - part1 - 1 <= block then n - part1 - 1 else block
  }

  function Joined(p1: seq<Event>, block: seq<Event>, p2: seq<Event>): seq<Event> {
    p1 + [Commit] + block + p2 + [Commit]
  }

  lemma BeforeCommit(c: Catalogue, p1: seq<Event>, rest: seq<Event>, n: nat)
    requires n <= |p1| && forall e :: e in p1 ==> e.Sql?
    ensures OnDisk(c, (p1 + rest)[..n]) == c
  {
    assert (p1 + rest)[..n] == [] + p1[..n];
    SqlTail([], p1[..n]);
    assert (p1 + rest)[..n][..0] == [];
  }

  lemma AfterCommit(c: Catalogue, head: seq<Event>, p2: seq<Event>, n: nat)
    requires head != [] && !head[|head| - 1].Sql? && |head| <= n <= |head + p2| && forall e :: e in p2 ==> e.Sql?
    ensures OnDisk(c, (head + p2)[..n]) == ExecAll(Fresh(c), head).catalogue
  {
    var es := head + p2;
    assert es[..n] == head + p2[..n - |head|];
    EndsCommitted(head, head[|head| - 1]);
    SqlTail(head, p2[..n - |head|]);
    assert es[..n][..|head|] == head;
  }

  /** What an attempt of n events leaves: nothing before the first commit, then part one with as much of
    * the autocommit block as it has run, and everything after the last commit. */
  lemma CommitPointsOf(c: Catalogue, p1: seq<Event>, block: seq<Event>, p2: seq<Event>, n: nat)
    requires forall e :: e in p1 || e in p2 ==> e.Sql?
    requires forall e :: e in block ==> e.Auto?
    ensures var es := Joined(p1, block, p2);
      Interrupted(c, es, n) ==
      if n <= |p1| then c
      else if n < |es| then ExecAll(Fresh(c), p1 + [Commit] + block[..BlockDone(|p1|, |block|, n)]).catalogue
      else ExecAll(Fresh(c), es).catalogue
  {
    hide OnDisk, ExecAll;
    var es := Joined(p1, block, p2);
    if n <= |p1| {
      assert es == p1 + ([Commit] + block + p2 + [Commit]);
      BeforeCommit(c, p1, [Commit] + block + p2 + [Commit], n);
    } else if n <= |p1| + 1 + |block| {
      WithinBlock(c, p1, block, p2, n);
    } else if n < |es| {
      AfterBlock(c, p1, block, p2, n);
    } else {
      AfterCommit(c, es, [], |es|);
      assert (es + [])[..|es|] == es && es[..|es|] == es;
    }
  }

  lemma WithinBlock(c: Catalogue, p1: seq<Event>, block: seq<Event>, p2: seq<Event>, n: nat)
    requires |p1| < n <= |p1| + 1 + |block| && forall e :: e in block ==> e.Auto?
    ensures OnDisk(c, Joined(p1, block, p2)[..n]) ==
            ExecAll(Fresh(c), p1 + [Commit] + block[..BlockDone(|p1|, |block|, n)]).catalogue
  {
    hide OnDisk, ExecAll;
    var j := n - |p1| - 1;
    var head := p1 + [Commit] + block[..j];
    assert j > 0 ==> block[j - 1] in block;
    assert Joined(p1, block, p2)[..n] == (head + [])[..n];
    AfterCommit(c, head, [], n);
  }

  lemma AfterBlock(c: Catalogue, p1: seq<Event>, block: seq<Event>, p2: seq<Event>, n: nat)
    requires |p1| + 1 + |block| < n < |Joined(p1, block, p2)|
    requires (forall e :: e in p2 ==> e.Sql?) && forall e :: e in block ==> e.Auto?
    ensures OnDisk(c, Joined(p1, block, p2)[..n]) ==
            ExecAll(Fresh(c), p1 + [Commit] + block[..BlockDone(|p1|, |block|, n)]).catalogue
  {
    hide OnDisk, ExecAll;
    var head := p1 + [Commit] + block;
    assert block[..|block|] == block;
    assert block != [] ==> block[|block| - 1] in block;
    assert Joined(p1, block, p2)[..n] == (head + p2)[..n];
    AfterCommit(c, head, p2, n);
  }

  lemma EndsCommitted(es: seq<Event>, last: Event)
    requires es != [] && es[|es| - 1] == last && !last.Sql?
    ensures CommittedPrefix(es) == |es| && es[..|es|] == es
  {
  }

  lemma CommitPoints(inv: Inventory, seed: Option<string>, c: Catalogue, n: nat)
    ensures var es, p1, block := Program(inv, seed), AllEvents(inv, seed, Part1(seed)), Block(inv, seed);
      Interrupted(c, es, n) ==
      if n <= |p1| then c
      else if n < |es| then ExecAll(Fresh(c), p1 + [Commit] + block[..BlockDone(|p1|, |block|, n)]).catalogue
      else ExecAll(Fresh(c), es).catalogue
  {
    ProgramParts(inv, seed);
    PartsWellFormed(inv, seed);
    LoopIsConcurrent(inv, seed, |inv.concurrent|);
    var p1, p2 := AllEvents(inv, seed, Part1(seed)), AllEvents(inv, seed, Part2());
    WellFormedIsSql(p1);
    WellFormedIsSql(p2);
    hide AllEvents, Block, Interrupted, ExecAll;
    CommitPointsOf(c, p1, Block(inv, seed), p2, n);
  }

  /** A connection that lives to the end has committed the whole upgrade. */
  lemma UninterruptedCompletes(inv: Inventory, seed: Option<string>, c: Catalogue, n: nat)
    requires n >= |Program(inv, seed)|
    ensures Interrupted(c, Program(inv, seed), n) == Complete(inv, seed, c)
  {
    ProgramParts(inv, seed);
    hide AllEvents, Block, Interrupted, ExecAll;
    CommitPoints(inv, seed, c, n);
  }

  lemma WellFormedIsSql(es: seq<Event>)
    requires WellFormed(es)
    ensures forall e :: e in es ==> e.Sql?
  {
    forall i | 0 <= i < |es| ensures es[i].Sql? {
      assert GoodAt(es, i);
    }
  }

  // ---------------------------------------------------------------- convergence

  /** The catalogue after an uninterrupted run. */
  function Complete(inv: Inventory, seed: Option<string>, c: Catalogue): Catalogue {
    ExecAll(Fresh(c), Program(inv, seed)).catalogue
  }

  /** What the whole program does to one entry. */
  function Outcome(inv: Inventory, seed: Option<string>, k: Key, c: Cell): Cell {
    if IsLargeIndex(inv, k) then Cell(Some(Settled(c.obj)), false)
    else Fold(c, AllEvents(inv, seed, Part1(seed)) + AllEvents(inv, seed, Part2()), k)
  }

  lemma HeadOutcome(inv: Inventory, seed: Option<string>, k: Key, c: Cell, j: nat)
    requires Consistent(inv) && !c.building && j <= |Block(inv, seed)|
    ensures var p1 := AllEvents(inv, seed, Part1(seed));
      var r := Fold(c, p1 + [Commit] + Block(inv, seed)[..j], k);
      if IsLargeIndex(inv, k) then SameOutcome(r, c.obj) else r == Fold(c, p1, k)
  {
    var p1, part := AllEvents(inv, seed, Part1(seed)), Block(inv, seed)[..j];
    FoldAppend(c, p1 + [Commit], part, k);
    FoldAppend(c, p1, [Commit], k);
    assert [Commit][..0] == [];
    assert Fold(Fold(c, p1, k), [Commit], k) == Fold(c, p1, k);
    LoopIsConcurrent(inv, seed, |inv.concurrent|);
    if IsLargeIndex(inv, k) {
      PartsAvoidLarge(inv, seed, k);
      FoldAvoided(c, p1, k);
      PartialBuild(part, k, c);
    } else {
      FoldAvoided(Fold(c, p1, k), part, k);
    }
  }

  lemma FoldProgram(c: Cell, p1: seq<Event>, block: seq<Event>, p2: seq<Event>, k: Key)
    ensures Fold(c, p1 + [Commit] + block + p2 + [Commit], k) == Fold(Fold(Fold(c, p1, k), block, k), p2, k)
  {
    FoldAppend(c, p1 + [Commit] + block + p2, [Commit], k);
    FoldAppend(c, p1 + [Commit] + block, p2, k);
    FoldAppend(c, p1 + [Commit], block, k);
    FoldAppend(c, p1, [Commit], k);
    assert forall d :: Fold(d, [Commit], k) == d by {
      assert [Commit][..0] == [];
    }
  }

  lemma ProgramOutcome(inv: Inventory, seed: Option<string>, k: Key, c: Cell)
    requires Consistent(inv) && !c.building
    ensures Fold(c, Program(inv, seed), k) == Outcome(inv, seed, k, c)
  {
    hide Loop, AllEvents, Fold;
    ProgramParts(inv, seed);
    var p1, block, p2 := AllEvents(inv, seed, Part1(seed)), Block(inv, seed), AllEvents(inv, seed, Part2());
    FoldProgram(c, p1, block, p2, k);
    FoldAppend(c, p1, p2, k);
    if IsLargeIndex(inv, k) {
      PartsAvoidLarge(inv, seed, k);
      FoldAvoided(c, p1, k);
      BuildsSettle(inv, seed, |inv.concurrent|, k.index.table, c);
      assert inv.concurrent[..|inv.concurrent|] == inv.concurrent;
      FoldAvoided(Cell(Some(Settled(c.obj)), false), p2, k);
    } else {
      LoopIsConcurrent(inv, seed, |inv.concurrent|);
      FoldAvoided(Fold(c, p1, k), block, k);
    }
  }

  lemma CompleteCell(inv: Inventory, seed: Option<string>, c: Catalogue, k: Key)
    requires Consistent(inv)
    ensures CellIn(Complete(inv, seed, c), k).obj == Outcome(inv, seed, k, CellIn(c, k)).obj
  {
    FoldIsExec(Fresh(c), Program(inv, seed), k);
    ProgramOutcome(inv, seed, k, CellIn(c, k));
  }

  /** Running the migration after one interrupted attempt, or once more after a completed one, gives
    * what a single run gives. */
  lemma RerunConverges(inv: Inventory, seed: Option<string>, c: Catalogue, n: nat)
    requires Consistent(inv)
    ensures Complete(inv, seed, Interrupted(c, Program(inv, seed), n)) == Complete(inv, seed, c)
  {
    var d := Interrupted(c, Program(inv, seed), n);
    var p1, p2 := AllEvents(inv, seed, Part1(seed)), AllEvents(inv, seed, Part2());
    CommitPoints(inv, seed, c, n);
    var j := BlockDone(|p1|, |Block(inv, seed)|, n);
    var head := p1 + [Commit] + Block(inv, seed)[..j];
    PartsWellFormed(inv, seed);
    forall k ensures CellIn(Complete(inv, seed, d), k).obj == CellIn(Complete(inv, seed, c), k).obj {
      var x := CellIn(c, k);
      CompleteCell(inv, seed, c, k);
      CompleteCell(inv, seed, d, k);
      if d == ExecAll(Fresh(c), head).catalogue {
        FoldIsExec(Fresh(c), head, k);
        HeadOutcome(inv, seed, k, x, j);
        if !IsLargeIndex(inv, k) {
          IdempotentFold(p1, k, x);
          FoldAppend(x, p1, p2, k);
          FoldAppend(CellIn(d, k), p1, p2, k);
        }
      } else if d == ExecAll(Fresh(c), Program(inv, seed)).catalogue {
        CompleteCell(inv, seed, c, k);
        if !IsLargeIndex(inv, k) {
          IdempotentFold(p1 + p2, k, x);
        }
      }
    }
    SameCells(Complete(inv, seed, d), Complete(inv, seed, c));
  }

  /** What any number of interrupted attempts leaves. */
  function Attempts(inv: Inventory, seed: Option<string>, c: Catalogue, stops: seq<nat>): Catalogue
    decreases |stops|
  {
    if stops == [] then c
    else Attempts(inv, seed, Interrupted(c, Program(inv, seed), stops[0]), stops[1..])
  }

  /** Main result: interrupt the upgrade any number of times, at any points, then let it finish. */
  lemma {:induction false} InterruptedUpgradeConverges(inv: Inventory, seed: Option<string>, c: Catalogue, stops: seq<nat>)
    requires Consistent(inv)
    ensures Complete(inv, seed, Attempts(inv, seed, c, stops)) == Complete(inv, seed, c)
    decreases |stops|
  {
    if stops != [] {
      RerunConverges(inv, seed, c, stops[0]);
      InterruptedUpgradeConverges(inv, seed, Interrupted(c, Program(inv, seed), stops[0]), stops[1..]);
    }
  }

  // ---------------------------------------------------------------- the schema it converges to

  lemma {:induction false} LoopContains(inv: Inventory, seed: Option<string>, p: Pass, i: nat, n: nat, e: Event)
    requires i < n <= Count(inv, p) && e in Body(inv, seed, p, i)
    ensures e in Loop(inv, seed, p, n)
    decreases n
  {
    if i < n - 1 { LoopContains(inv, seed, p, i, n - 1, e); }
  }

  lemma {:induction false} SectionsContain(inv: Inventory, seed: Option<string>, sections: seq<Section>, i: nat, e: Event)
    requires i < |sections| && e in Events(inv, seed, sections[i])
    ensures e in AllEvents(inv, seed, sections)
    decreases |sections|
  {
    if i < |sections| - 1 { SectionsContain(inv, seed, sections[..|sections| - 1], i, e); }
  }

  lemma {:induction false} CreatedStays(es: seq<Event>, n: nat, k: Key, c: Cell)
    requires WellFormed(es) && KindOf(k) == Validated && n <= |es|
    requires exists e :: e in es[..n] && e.Sql? && e.key == k && e.action.CreateIfMissing?
    ensures Fold(c, es[..n], k).obj.Some?
    decreases n
  {
    var e :| e in es[..n] && e.Sql? && e.key == k && e.action.CreateIfMissing?;
    assert es[..n][..n - 1] == es[..n - 1];
    assert GoodAt(es, n - 1);
    if e in es[..n - 1] {
      CreatedStays(es, n - 1, k, c);
    } else {
      assert e == es[n - 1];
    }
  }

  /** A constraint the program adds NOT VALID is there, and validated, at the end. */
  lemma ValidatedAtEnd(inv: Inventory, seed: Option<string>, c: Catalogue, e: Event)
    requires Consistent(inv)
    requires e in AllEvents(inv, seed, Part1(seed)) || e in AllEvents(inv, seed, Part2())
    requires e.Sql? && KindOf(e.key) == Validated && e.action.CreateIfMissing?
    ensures e.key in Complete(inv, seed, c) && Complete(inv, seed, c)[e.key].ok
  {
    var es := AllEvents(inv, seed, Part1(seed)) + AllEvents(inv, seed, Part2());
    PartsWellFormed(inv, seed);
    CompleteCell(inv, seed, c, e.key);
    assert es[..|es|] == es && e in es;
    CreatedStays(es, |es|, e.key, CellIn(c, e.key));
    ValidatedFold(es, |es|, e.key, CellIn(c, e.key));
  }

  lemma RowSecurityBody(inv: Inventory, seed: Option<string>, i: nat, t: Table, k: Key, c: Cell)
    requires i < |inv.tables|
    requires k in {RlsKey(t, false), RlsKey(t, true), PolicyKey(t, TenantIsolation)}
    ensures Fold(c, Body(inv, seed, RowSecurity, i), k) ==
            if inv.tables[i] == t then c.(obj := Some(if k.RlsKey? then ON else TENANT_POLICY)) else c
  {
    var u := inv.tables[i];
    var e0, e1 := Sql(RlsKey(u, false), Put(ON)), Sql(RlsKey(u, true), Put(ON));
    var e2, e3 := Sql(PolicyKey(u, TenantIsolation), DropIfExists), Sql(PolicyKey(u, TenantIsolation), Put(TENANT_POLICY));
    assert Body(inv, seed, RowSecurity, i) == [e0, e1, e2] + [e3];
    hide Body;
    FoldAppend(c, [e0, e1, e2], [e3], k);
    FoldThree(c, e0, e1, e2, k);
    var b := FoldOne(FoldOne(FoldOne(c, e0, k), e1, k), e2, k);
    assert Fold(b, [e3], k) == FoldOne(b, e3, k) by {
      assert [e3][..0] == [];
    }
  }

  lemma {:induction false} RowSecurityLoop(inv: Inventory, seed: Option<string>, n: nat, t: Table, k: Key, c: Cell)
    requires n <= |inv.tables| && t in inv.tables[..n]
    requires k in {RlsKey(t, false), RlsKey(t, true), PolicyKey(t, TenantIsolation)}
    ensures Fold(c, Loop(inv, seed, RowSecurity, n), k).obj == Some(if k.RlsKey? then ON else TENANT_POLICY)
    decreases n
  {
    hide Body, Fold;
    var body := Body(inv, seed, RowSecurity, n - 1);
    var b := Fold(c, Loop(inv, seed, RowSecurity, n - 1), k);
    FoldAppend(c, Loop(inv, seed, RowSecurity, n - 1), body, k);
    RowSecurityBody(inv, seed, n - 1, t, k, b);
    assert inv.tables[..n] == inv.tables[..n - 1] + [inv.tables[n - 1]];
    if inv.tables[n - 1] != t {
      RowSecurityLoop(inv, seed, n - 1, t, k, c);
    }
  }

  lemma RowSecurityAtEnd(inv: Inventory, seed: Option<string>, c: Catalogue, t: Table, k: Key)
    requires Consistent(inv) && t in inv.tables
    requires k in {RlsKey(t, false), RlsKey(t, true), PolicyKey(t, TenantIsolation)}
    ensures k in Complete(inv, seed, c) && Complete(inv, seed, c)[k] == if k.RlsKey? then ON else TENANT_POLICY
  {
    hide Body, Loop, Fold, Part1;
    var p1, p2 := AllEvents(inv, seed, Part1(seed)), AllEvents(inv, seed, Part2());
    var x := CellIn(c, k);
    CompleteCell(inv, seed, c, k);
    FoldAppend(x, p1, p2, k);
    var before := AllEvents(inv, seed, Part2()[..5]);
    assert p2 == before + Loop(inv, seed, RowSecurity, |inv.tables|);
    FoldAppend(Fold(x, p1, k), before, Loop(inv, seed, RowSecurity, |inv.tables|), k);
    assert inv.tables[..|inv.tables|] == inv.tables;
    RowSecurityLoop(inv, seed, |inv.tables|, t, k, Fold(Fold(x, p1, k), before, k));
  }

  lemma TenantFkAtEnd(inv: Inventory, seed: Option<string>, c: Catalogue, t: Table)
    requires Consistent(inv) && t in inv.tables
    ensures var d, k := Complete(inv, seed, c), ConstraintKey(t, TenantIdFk); k in d && d[k].ok
  {
    var i :| 0 <= i < |inv.tables| && inv.tables[i] == t;
    var e := Sql(ConstraintKey(t, TenantIdFk), CreateIfMissing(TENANT_FK));
    assert Body(inv, seed, TenantFks, i)[0] == e;
    LoopContains(inv, seed, TenantFks, i, |inv.tables|, e);
    SectionsContain(inv, seed, Part1(seed), 6, e);
    ValidatedAtEnd(inv, seed, c, e);
  }

  lemma CompositeFkAtEnd(inv: Inventory, seed: Option<string>, c: Catalogue, fk: Fk)
    requires Consistent(inv) && fk in inv.fks
    ensures var d, k := Complete(inv, seed, c), ConstraintKey(fk.child, Tfk(fk.childColumn)); k in d && d[k].ok
  {
    var i :| 0 <= i < |inv.fks| && inv.fks[i] == fk;
    var e := Sql(ConstraintKey(fk.child, Tfk(fk.childColumn)), CreateIfMissing(CompositeFkObject(fk)));
    assert Body(inv, seed, CompositeFks, i)[0] == e;
    LoopContains(inv, seed, CompositeFks, i, |inv.fks|, e);
    SectionsContain(inv, seed, Part2(), 3, e);
    ValidatedAtEnd(inv, seed, c, e);
  }

  // ---------------------------------------------------------------- what holds of every statement

  ghost predicate EventsAre(es: seq<Event>, q: Event -> bool) {
    forall e :: e in es ==> q(e)
  }

  ghost predicate SectionIs(inv: Inventory, seed: Option<string>, section: Section, q: Event -> bool) {
    match section
    case Once(es) => EventsAre(es, q)
    case ForEach(p) => forall i :: 0 <= i < Count(inv, p) ==> EventsAre(Body(inv, seed, p, i), q)
  }

  lemma {:induction false} LoopIs(inv: Inventory, seed: Option<string>, p: Pass, n: nat, q: Event -> bool)
    requires n <= Count(inv, p) && SectionIs(inv, seed, ForEach(p), q)
    ensures EventsAre(Loop(inv, seed, p, n), q)
    decreases n
  {
    if n > 0 {
      LoopIs(inv, seed, p, n - 1, q);
      assert EventsAre(Body(inv, seed, p, n - 1), q);
    }
  }

  lemma {:induction false} SectionsAre(inv: Inventory, seed: Option<string>, sections: seq<Section>, q: Event -> bool)
    requires forall i :: 0 <= i < |sections| ==> SectionIs(inv, seed, sections[i], q)
    ensures EventsAre(AllEvents(inv, seed, sections), q)
    decreases |sections|
  {
    if sections != [] {
      var last := sections[|sections| - 1];
      SectionsAre(inv, seed, sections[..|sections| - 1], q);
      if last.ForEach? { LoopIs(inv, seed, last.pass, Count(inv, last.pass), q); }
    }
  }

  /** Enough to know it of the statements issued once and of the loop bodies. */
  lemma ProgramIs(inv: Inventory, seed: Option<string>, q: Event -> bool)
    requires EventsAre(SeedTenants(seed), q) && EventsAre(SystemSettingsKey(), q) && EventsAre(PluginStorageKeys(), q)
    requires EventsAre(LookupIndexes(), q) && EventsAre(TenantResolvers(), q) && EventsAre(BillingStateKeys(), q)
    requires forall p, i :: p != ConcurrentIndexes && 0 <= i < Count(inv, p) ==> EventsAre(Body(inv, seed, p, i), q)
    ensures EventsAre(AllEvents(inv, seed, Part1(seed)) + AllEvents(inv, seed, Part2()), q)
  {
    hide EventsAre, Body, SeedTenants, SystemSettingsKey, PluginStorageKeys, LookupIndexes, TenantResolvers, BillingStateKeys;
    SectionsAre(inv, seed, Part1(seed), q);
    SectionsAre(inv, seed, Part2(), q);
    JoinedAre(AllEvents(inv, seed, Part1(seed)), AllEvents(inv, seed, Part2()), q);
  }

  lemma JoinedAre(xs: seq<Event>, ys: seq<Event>, q: Event -> bool)
    requires EventsAre(xs, q) && EventsAre(ys, q)
    ensures EventsAre(xs + ys, q)
  {
  }

  // ---------------------------------------------------------------- the migration's own constraints

  /** The statement leaves the entry of k alone, or adds or validates o under that name. */
  predicate Suits(e: Event, k: Key, o: Object) {
    e.Commit? || e.key != k || e.action == MarkOk || e.action == CreateIfMissing(o)
  }

  /** Two entries differ at most in whether they are valid. */
  predicate SameShape(o: Object, own: Object) {
    o.columns == own.columns && o.definition == own.definition
  }

  /** An entry that was there keeps its shape; a new one has the migration's. */
  lemma {:induction false} ShapeKept(es: seq<Event>, k: Key, o: Object, c: Cell)
    requires EventsAre(es, e => Suits(e, k, o))
    ensures var r := Fold(c, es, k).obj;
      && (c.obj.Some? ==> r.Some?)
      && (r.Some? ==> SameShape(r.value, if c.obj.Some? then c.obj.value else o))
    decreases |es|
  {
    if es != [] {
      ShapeKept(es[..|es| - 1], k, o, c);
      assert es[|es| - 1] in es;
    }
  }

  /** No column carries two composite keys, and no column gets two unique constraints. */
  ghost predicate Distinct(inv: Inventory) {
    forall f, g :: f in inv.fks && g in inv.fks && f.child == g.child && f.childColumn == g.childColumn ==> f == g
  }

  /** What the migration adds under a key, if it is one of its foreign keys. */
  ghost predicate AddedAs(inv: Inventory, k: Key, o: Object) {
    || (exists t :: t in inv.tables && k == ConstraintKey(t, TenantIdFk) && o == TENANT_FK)
    || (exists fk :: fk in inv.fks && k == ConstraintKey(fk.child, Tfk(fk.childColumn)) && o == CompositeFkObject(fk))
  }

  lemma BodySuits(inv: Inventory, seed: Option<string>, p: Pass, i: nat, k: Key, o: Object)
    requires Distinct(inv) && AddedAs(inv, k, o) && p != ConcurrentIndexes && i < Count(inv, p)
    ensures EventsAre(Body(inv, seed, p, i), e => Suits(e, k, o))
  {
    if p == CompositeFks {
      assert inv.fks[i] in inv.fks;
    }
  }

  lemma HeadSuits(seed: Option<string>, t: Table, name: ConstraintName, o: Object)
    requires name.TenantIdFk? || name.Tfk?
    ensures var q := e => Suits(e, ConstraintKey(t, name), o);
      EventsAre(SeedTenants(seed), q) && EventsAre(SystemSettingsKey(), q) && EventsAre(PluginStorageKeys(), q)
  {
  }

  lemma LookupsSuit(t: Table, name: ConstraintName, o: Object)
    requires name.TenantIdFk? || name.Tfk?
    ensures EventsAre(LookupIndexes(), e => Suits(e, ConstraintKey(t, name), o))
  {
  }

  lemma TailSuits(t: Table, name: ConstraintName, o: Object)
    requires name.TenantIdFk? || name.Tfk?
    ensures var q := e => Suits(e, ConstraintKey(t, name), o);
      EventsAre(TenantResolvers(), q) && EventsAre(BillingStateKeys(), q)
  {
  }

  lemma ProgramSuits(inv: Inventory, seed: Option<string>, t: Table, name: ConstraintName, o: Object)
    requires Distinct(inv) && AddedAs(inv, ConstraintKey(t, name), o) && (name.TenantIdFk? || name.Tfk?)
    ensures EventsAre(AllEvents(inv, seed, Part1(seed)) + AllEvents(inv, seed, Part2()),
                      e => Suits(e, ConstraintKey(t, name), o))
  {
    hide EventsAre, Suits, Body;
    var q := e => Suits(e, ConstraintKey(t, name), o);
    HeadSuits(seed, t, name, o);
    LookupsSuit(t, name, o);
    TailSuits(t, name, o);
    forall p, i | p != ConcurrentIndexes && 0 <= i < Count(inv, p) ensures EventsAre(Body(inv, seed, p, i), q) {
      BodySuits(inv, seed, p, i, ConstraintKey(t, name), o);
    }
    ProgramIs(inv, seed, q);
  }

  /** The catalogue has the object under this name, valid. */
  ghost predicate IsOwn(d: Catalogue, k: Key, own: Object) {
    k in d && d[k] == own.(ok := true)
  }

  /** Nothing, or something of the same shape, bears the name. */
  predicate NameIsFree(c: Catalogue, k: Key, own: Object) {
    k in c ==> SameShape(c[k], own)
  }

  /** The foreign key that ends up under the name is valid, and it is the migration's own exactly if
    * the name was free: the migration looks at names alone. */
  lemma OwnKeyIff(inv: Inventory, seed: Option<string>, c: Catalogue, t: Table, name: ConstraintName, own: Object)
    requires Consistent(inv) && Distinct(inv) && (name.TenantIdFk? || name.Tfk?)
    requires AddedAs(inv, ConstraintKey(t, name), own)
    requires var d, k := Complete(inv, seed, c), ConstraintKey(t, name); k in d && d[k].ok
    ensures IsOwn(Complete(inv, seed, c), ConstraintKey(t, name), own) <==> NameIsFree(c, ConstraintKey(t, name), own)
  {
    var k := ConstraintKey(t, name);
    var es := AllEvents(inv, seed, Part1(seed)) + AllEvents(inv, seed, Part2());
    ProgramSuits(inv, seed, t, name, own);
    ShapeKept(es, k, own, CellIn(c, k));
    CompleteCell(inv, seed, c, k);
    hide Complete, AllEvents, Fold, Consistent, AddedAs, Distinct;
  }

  /** The migration's own lists qualify. */
  lemma OwnInventoryIsDistinct()
    ensures Distinct(INVENTORY)
  {
    forall f, g | f in COMPOSITE_FKS && g in COMPOSITE_FKS && f.child == g.child && f.childColumn == g.childColumn
      ensures f == g
    {
      hide FkAt;
      var i :| 0 <= i < FK_COUNT && COMPOSITE_FKS[i] == f;
      var j :| 0 <= j < FK_COUNT && COMPOSITE_FKS[j] == g;
      if i < j { SortedFar(i, j); } else if j < i { SortedFar(j, i); }
    }
  }

  // ---------------------------------------------------------------- indexes

  /** The statement leaves the index alone, drops it, or creates it valid if it is missing. */
  predicate KeepsIndex(e: Event, k: Key) {
    e.Commit? || e.key != k || e.action == DropIfExists || (e.action.CreateIfMissing? && e.action.obj.ok)
  }

  predicate Drops(e: Event, k: Key) {
    e.Sql? && e.key == k && e.action == DropIfExists
  }

  /** The four indexes that the migration drops and builds again. */
  predicate IsRebuilt(k: Key) {
    k.IndexKey? && (k.index.StorageLookup? || k.index.StorageSystemKey? || k.index.ResetTokenHash?
                    || k.index.VerificationTokenHash?)
  }

  predicate ValidCell(c: Cell) {
    c.obj.Some? ==> c.obj.value.ok
  }

  lemma {:induction false} IndexFold(es: seq<Event>, k: Key, c: Cell)
    requires EventsAre(es, e => KeepsNamed(e, k))
    requires ValidCell(c) || exists e :: e in es && Drops(e, k)
    ensures ValidCell(Fold(c, es, k))
    decreases |es|
  {
    if es != [] {
      var init, last := es[..|es| - 1], es[|es| - 1];
      assert last in es;
      if !Drops(last, k) {
        if !ValidCell(c) {
          var e :| e in es && Drops(e, k);
          assert e in init;
        }
        IndexFold(init, k, c);
      }
    }
  }

  lemma {:induction false} UndroppedFold(es: seq<Event>, k: Key, c: Cell)
    requires EventsAre(es, e => KeepsNamed(e, k)) && !IsRebuilt(k) && c.obj.Some?
    ensures Fold(c, es, k) == c
    decreases |es|
  {
    if es != [] {
      UndroppedFold(es[..|es| - 1], k, c);
      assert es[|es| - 1] in es;
    }
  }

  predicate KeepsNamed(e: Event, k: Key) {
    KeepsIndex(e, k) && (Drops(e, k) ==> IsRebuilt(k)) && (e.Commit? || e.Sql?)
  }

  lemma BodyKeepsIndex(inv: Inventory, seed: Option<string>, p: Pass, i: nat, k: Key)
    requires k.IndexKey? && p != ConcurrentIndexes && i < Count(inv, p)
    ensures EventsAre(Body(inv, seed, p, i), e => KeepsNamed(e, k))
  {
  }

  lemma HeadKeepsIndex(seed: Option<string>, k: Key)
    requires k.IndexKey?
    ensures var q := e => KeepsNamed(e, k);
      EventsAre(SeedTenants(seed), q) && EventsAre(SystemSettingsKey(), q) && EventsAre(PluginStorageKeys(), q)
  {
  }

  lemma TailKeepsIndex(k: Key)
    requires k.IndexKey?
    ensures var q := e => KeepsNamed(e, k);
      EventsAre(LookupIndexes(), q) && EventsAre(TenantResolvers(), q) && EventsAre(BillingStateKeys(), q)
  {
  }

  lemma ProgramKeepsIndex(inv: Inventory, seed: Option<string>, k: Key)
    requires k.IndexKey?
    ensures EventsAre(AllEvents(inv, seed, Part1(seed)) + AllEvents(inv, seed, Part2()), e => KeepsNamed(e, k))
  {
    hide EventsAre, KeepsNamed, Body;
    var q := e => KeepsNamed(e, k);
    HeadKeepsIndex(seed, k);
    TailKeepsIndex(k);
    forall p, i | p != ConcurrentIndexes && 0 <= i < Count(inv, p) ensures EventsAre(Body(inv, seed, p, i), q) {
      BodyKeepsIndex(inv, seed, p, i, k);
    }
    ProgramIs(inv, seed, q);
  }

  lemma RebuiltIsDropped(inv: Inventory, seed: Option<string>, k: Key)
    requires IsRebuilt(k)
    ensures exists e :: e in AllEvents(inv, seed, Part1(seed)) + AllEvents(inv, seed, Part2()) && Drops(e, k)
  {
    var e := Sql(k, DropIfExists);
    assert Part1(seed)[4] == Once(PluginStorageKeys()) && Part2()[0] == Once(LookupIndexes());
    InLookupIndexes(k);
    if e in PluginStorageKeys() {
      SectionsContain(inv, seed, Part1(seed), 4, e);
    } else {
      SectionsContain(inv, seed, Part2(), 0, e);
    }
    hide AllEvents, IsRebuilt;
    assert e in AllEvents(inv, seed, Part1(seed)) + AllEvents(inv, seed, Part2()) && Drops(e, k);
  }

  lemma InLookupIndexes(k: Key)
    requires IsRebuilt(k)
    ensures Sql(k, DropIfExists) in PluginStorageKeys() || Sql(k, DropIfExists) in LookupIndexes()
  {
    var a, b := PluginStorageKeys(), LookupIndexes();
    assert a[1] in a && a[2] in a && b[0] in b && b[2] in b;
  }

  /** One index ends valid, or absent, exactly if it was so at the start, or is built concurrently, or is
    * one of the four. */
  lemma IndexOkIff(inv: Inventory, seed: Option<string>, c: Catalogue, k: Key)
    requires Consistent(inv) && k.IndexKey?
    ensures ValidCell(CellIn(Complete(inv, seed, c), k)) <==>
            ValidCell(CellIn(c, k)) || IsLargeIndex(inv, k) || IsRebuilt(k)
  {
    CompleteCell(inv, seed, c, k);
    var es, x := AllEvents(inv, seed, Part1(seed)) + AllEvents(inv, seed, Part2()), CellIn(c, k);
    ProgramKeepsIndex(inv, seed, k);
    if IsRebuilt(k) { RebuiltIsDropped(inv, seed, k); }
    hide Complete, AllEvents, Consistent, IsRebuilt, Fold;
    if !IsLargeIndex(inv, k) {
      if ValidCell(x) || IsRebuilt(k) {
        IndexFold(es, k, x);
      } else {
        UndroppedFold(es, k, x);
      }
    }
  }

  // ---------------------------------------------------------------- main result

  /** Row security is enabled and forced on the table, under the tenant policy. */
  ghost predicate Isolated(d: Catalogue, t: Table) {
    && RlsKey(t, false) in d && d[RlsKey(t, false)] == ON
    && RlsKey(t, true) in d && d[RlsKey(t, true)] == ON
    && PolicyKey(t, TenantIsolation) in d && d[PolicyKey(t, TenantIsolation)] == TENANT_POLICY
  }

  ghost predicate IsOk(d: Catalogue, k: Key) {
    k in d && d[k].ok
  }

  function TenantKeyOf(t: Table): Key { ConstraintKey(t, TenantIdFk) }

  function CompositeKeyOf(fk: Fk): Key { ConstraintKey(fk.child, Tfk(fk.childColumn)) }

  function LargeKeyOf(t: Table): Key { IndexKey(TenantIdIndex(t)) }

  /** Whatever catalogue the completing run started from, every tenant-scoped table ends isolated, and
    * under the name of each tenant key, composite key and large index there is something valid. */
  lemma FinalSchema(inv: Inventory, seed: Option<string>, c: Catalogue)
    requires Consistent(inv)
    ensures forall t :: t in inv.tables ==> Isolated(Complete(inv, seed, c), t)
    ensures forall t :: t in inv.tables ==> IsOk(Complete(inv, seed, c), TenantKeyOf(t))
    ensures forall fk :: fk in inv.fks ==> IsOk(Complete(inv, seed, c), CompositeKeyOf(fk))
    ensures forall t :: t in inv.concurrent ==> IsOk(Complete(inv, seed, c), LargeKeyOf(t))
  {
    forall t | t in inv.tables
      ensures Isolated(Complete(inv, seed, c), t) && IsOk(Complete(inv, seed, c), TenantKeyOf(t))
    {
      RowSecurityAtEnd(inv, seed, c, t, RlsKey(t, false));
      RowSecurityAtEnd(inv, seed, c, t, RlsKey(t, true));
      RowSecurityAtEnd(inv, seed, c, t, PolicyKey(t, TenantIsolation));
      TenantFkAtEnd(inv, seed, c, t);
    }
    forall fk | fk in inv.fks ensures IsOk(Complete(inv, seed, c), CompositeKeyOf(fk)) {
      CompositeFkAtEnd(inv, seed, c, fk);
    }
    forall t | t in inv.concurrent ensures IsOk(Complete(inv, seed, c), LargeKeyOf(t)) {
      CompleteCell(inv, seed, c, LargeKeyOf(t));
    }
  }

  /** It is the migration's own object exactly if the name was free: absent from the start, or already
    * of the wanted columns and definition; for a large index also if what bore the name was invalid. */
  lemma OwnObjectsIff(inv: Inventory, seed: Option<string>, c: Catalogue)
    requires Consistent(inv) && Distinct(inv)
    ensures forall t :: t in inv.tables ==>
              (IsOwn(Complete(inv, seed, c), TenantKeyOf(t), TENANT_FK) <==> NameIsFree(c, TenantKeyOf(t), TENANT_FK))
    ensures forall fk :: fk in inv.fks ==>
              (IsOwn(Complete(inv, seed, c), CompositeKeyOf(fk), CompositeFkObject(fk)) <==>
               NameIsFree(c, CompositeKeyOf(fk), CompositeFkObject(fk)))
    ensures forall t :: t in inv.concurrent ==>
              (IsOwn(Complete(inv, seed, c), LargeKeyOf(t), PlainIndex([TENANT_ID])) <==>
               !IsOk(c, LargeKeyOf(t)) || NameIsFree(c, LargeKeyOf(t), PlainIndex([TENANT_ID])))
  {
    FinalSchema(inv, seed, c);
    hide Complete;
    forall t | t in inv.tables
      ensures IsOwn(Complete(inv, seed, c), TenantKeyOf(t), TENANT_FK) <==> NameIsFree(c, TenantKeyOf(t), TENANT_FK)
    {
      OwnKeyIff(inv, seed, c, t, TenantIdFk, TENANT_FK);
    }
    forall fk | fk in inv.fks
      ensures IsOwn(Complete(inv, seed, c), CompositeKeyOf(fk), CompositeFkObject(fk)) <==>
              NameIsFree(c, CompositeKeyOf(fk), CompositeFkObject(fk))
    {
      OwnKeyIff(inv, seed, c, fk.child, Tfk(fk.childColumn), CompositeFkObject(fk));
    }
    forall t | t in inv.concurrent
      ensures IsOwn(Complete(inv, seed, c), LargeKeyOf(t), PlainIndex([TENANT_ID])) <==>
              !IsOk(c, LargeKeyOf(t)) || NameIsFree(c, LargeKeyOf(t), PlainIndex([TENANT_ID]))
    {
      CompleteCell(inv, seed, c, LargeKeyOf(t));
    }
  }

  /** Every index of the final schema is valid exactly if each invalid one at the start is built
    * concurrently or is one of the four that are dropped and built again. */
  lemma AllIndexesValidIff(inv: Inventory, seed: Option<string>, c: Catalogue)
    requires Consistent(inv)
    ensures (forall k :: k in Complete(inv, seed, c) && k.IndexKey? ==> Complete(inv, seed, c)[k].ok) <==>
            (forall k :: k in c && k.IndexKey? && !c[k].ok ==> IsLargeIndex(inv, k) || IsRebuilt(k))
  {
    var d := Complete(inv, seed, c);
    hide Complete, IsRebuilt, IsLargeIndex;
    forall k: Key | k.IndexKey?
      ensures ValidCell(CellIn(d, k)) <==> ValidCell(CellIn(c, k)) || IsLargeIndex(inv, k) || IsRebuilt(k)
    {
      IndexOkIff(inv, seed, c, k);
    }
    assert forall k :: k in d ==> CellIn(d, k).obj == Some(d[k]);
    assert forall k :: k in c ==> CellIn(c, k).obj == Some(c[k]);
    if k: Key :| k in c && k.IndexKey? && !c[k].ok && !IsLargeIndex(inv, k) && !IsRebuilt(k) {
      assert !ValidCell(CellIn(c, k));
      assert !ValidCell(CellIn(d, k));
    }
    if k: Key :| k in d && k.IndexKey? && !d[k].ok {
      assert !ValidCell(CellIn(d, k));
      assert !ValidCell(CellIn(c, k));
    }
  }

  /** Why the invalid index is dropped first: CREATE INDEX CONCURRENTLY IF NOT EXISTS alone leaves
    * the entry of a killed build invalid for ever. */
  lemma BuildAloneKeepsInvalid(o: Object, k: Key)
    requires !o.ok
    ensures var start := Auto(k, BuildStart(PlainIndex([TENANT_ID])));
      var killed := Cell(Some(o), false);
      && Fold(killed, [start, Auto(k, BuildFinish), Commit], k) == killed
      && Fold(killed, [Auto(k, DropIfInvalid), start, Auto(k, BuildFinish)], k).obj == Some(PlainIndex([TENANT_ID]))
  {
    var start := Auto(k, BuildStart(PlainIndex([TENANT_ID])));
    FoldThree(Cell(Some(o), false), start, Auto(k, BuildFinish), Commit, k);
    FoldThree(Cell(Some(o), false), Auto(k, DropIfInvalid), start, Auto(k, BuildFinish), k);
  }
}
