/**
  * Migration 008, knowledge-base permissions: rows of the old permission table and the owners of
  * knowledge bases become access policies, one per knowledge base, and the old table is dropped.
  */
module KbPermissions {
  import opened Wrappers
  import Slugs

  datatype Actor = User(id: string) | Group(id: string)

  datatype UserRow = UserRow(id: string, role: string, active: bool)

  datatype Kb = Kb(id: string, slug: string, owner: Option<string>)

  datatype Permission = Permission(
    kb: string, user: Option<string>, group: Option<string>, active: bool, expiresAt: Option<int>)

  datatype Policy = Policy(id: nat, name: string, allow: bool, active: bool, createdBy: string)
  datatype Statement = Statement(policy: nat, actions: seq<string>, resources: seq<string>)
  datatype Binding = Binding(policy: nat, actor: Actor)

  datatype Error = DuplicatePolicyName(name: string) | SlugTooLong(slug: string)

  type Bindings = map<string, set<Actor>>   // by slug

  // ---------------------------------------------------------------- what the old table meant

  /** A row with a user and a group counts for the user. */
  function ActorOf(p: Permission): Option<Actor> {
    if p.user.Some? then Some(User(p.user.value))
    else if p.group.Some? then Some(Group(p.group.value))
    else None
  }

  predicate InForce(p: Permission, now: int) {
    p.active && (p.expiresAt.None? || p.expiresAt.value > now)
  }

  /** The access the old schema gave an actor on a knowledge base. */
  predicate MayRead(perms: seq<Permission>, kb: Kb, now: int, a: Actor) {
    || (kb.owner.Some? && a == User(kb.owner.value))
    || exists p :: p in perms && p.kb == kb.id && InForce(p, now) && ActorOf(p) == Some(a)
  }

  /** Ids and slugs are unique, and a slug is no pattern. */
  ghost predicate KbKeys(kbs: seq<Kb>) {
    && (forall i, j :: 0 <= i < j < |kbs| ==> kbs[i].id != kbs[j].id && kbs[i].slug != kbs[j].slug)
    && (forall i :: 0 <= i < |kbs| ==> '*' !in kbs[i].slug)
  }

  // ---------------------------------------------------------------- what the new tables mean

  class AccessTables {
    var policies: seq<Policy>
    var statements: seq<Statement>
    var bindings: seq<Binding>
    var nextId: nat          // stands for uuid4: ids below it are taken

    ghost predicate Valid()
      reads this
    {
      && (forall p :: p in policies ==> p.id < nextId)
      && (forall s :: s in statements ==> s.policy < nextId)
      && (forall b :: b in bindings ==> b.policy < nextId)
    }

    ghost function Snapshot(): Tables
      reads this
    {
      Tables(policies, statements, bindings)
    }

    constructor ()
      ensures Valid() && Snapshot() == Tables([], [], [])
    {
      policies, statements, bindings, nextId := [], [], [], 0;
    }
  }

  datatype Tables = Tables(policies: seq<Policy>, statements: seq<Statement>, bindings: seq<Binding>)

  /** fnmatch(value, pattern): any function at all. */
  type Glob = (string, string) -> bool

  const READ := "kb.read"

  /** The policy engine compares a value exactly unless it contains an asterisk. */
  ghost predicate MatchesAny(g: Glob, values: seq<string>, v: string) {
    exists x :: x in values && (if '*' in x then g(v, x) else x == v)
  }

  ghost predicate Matches(g: Glob, s: Statement, action: string, resource: string) {
    MatchesAny(g, s.actions, action) && MatchesAny(g, s.resources, resource)
  }

  /** Some active policy of this effect is bound to the actor and matches. */
  ghost predicate Hits(g: Glob, t: Tables, a: Actor, action: string, resource: string, allow: bool) {
    exists p, s :: p in t.policies && s in t.statements && s.policy == p.id
      && p.allow == allow && p.active && Matches(g, s, action, resource) && Binding(p.id, a) in t.bindings
  }

  /** Whom a user's check looks at: the user and the user's groups. */
  function ActorsOf(user: string, groups: set<string>): set<Actor> {
    {User(user)} + set group | group in groups :: Group(group)
  }

  ghost predicate HitsOne(g: Glob, t: Tables, actors: set<Actor>, action: string, resource: string, allow: bool) {
    exists a :: a in actors && Hits(g, t, a, action, resource, allow)
  }

  /** PolicyCache.check for a user who is no admin: some policy allows and none denies. */
  ghost predicate Allowed(g: Glob, t: Tables, actors: set<Actor>, action: string, resource: string) {
    HitsOne(g, t, actors, action, resource, true) && !HitsOne(g, t, actors, action, resource, false)
  }

  ghost predicate NamesUnique(t: Tables) {
    forall i, j :: 0 <= i < j < |t.policies| ==> t.policies[i].name != t.policies[j].name
  }

  /** No binding is stored twice. */
  ghost predicate NoDuplicates(bs: seq<Binding>) {
    forall i, j :: 0 <= i < j < |bs| ==> bs[i] != bs[j]
  }

  function PolicyName(slug: string): string { "kb-migrated-" + slug }

  function Resource(slug: string): string { "kb:" + slug }

  // ---------------------------------------------------------------- collecting bindings

  function SetAt(m: Bindings, slug: string): set<Actor> {
    if slug in m then m[slug] else {}
  }

  /** bindings_by_slug[slug].add(actor) on a defaultdict. */
  function Added(m: Bindings, slug: string, a: Actor): Bindings {
    m[slug := SetAt(m, slug) + {a}]
  }

  /** A permission row in force on the knowledge base with this slug names the actor. */
  ghost predicate ByPermission(perms: seq<Permission>, kbs: seq<Kb>, now: int, slug: string, a: Actor) {
    exists p, kb :: p in perms && kb in kbs && p.kb == kb.id && kb.slug == slug && InForce(p, now) && ActorOf(p) == Some(a)
  }

  ghost predicate ByOwnership(kbs: seq<Kb>, slug: string, a: Actor) {
    exists kb :: kb in kbs && kb.slug == slug && kb.owner.Some? && a == User(kb.owner.value)
  }

  /** The bindings hold exactly the accesses of the given permissions and of the first `owners`
    * owners, and no slug is bound to nobody. */
  ghost predicate Collected(m: Bindings, perms: seq<Permission>, kbs: seq<Kb>, owners: nat, now: int) {
    && owners <= |kbs|
    && (forall slug, a ::
          a in SetAt(m, slug) <==> ByPermission(perms, kbs, now, slug, a) || ByOwnership(kbs[..owners], slug, a))
    && (forall slug :: slug in m ==> m[slug] != {})
  }

  /** perms.join(kbs): the knowledge base a permission row is joined with. */
  method FindKb(kbs: seq<Kb>, id: string) returns (found: Option<Kb>)
    ensures found.Some? ==> found.value in kbs && found.value.id == id
    ensures found.None? ==> forall kb :: kb in kbs ==> kb.id != id
  {
    var i := 0;
    while i < |kbs|
      invariant 0 <= i <= |kbs|
      invariant forall k :: 0 <= k < i ==> kbs[k].id != id
    {
      if kbs[i].id == id { return Some(kbs[i]); }
      i := i + 1;
    }
    return None;
  }

  lemma SameKb(kbs: seq<Kb>, a: Kb, b: Kb)
    requires KbKeys(kbs) && a in kbs && b in kbs && (a.id == b.id || a.slug == b.slug)
    ensures a == b
  {
    var i :| 0 <= i < |kbs| && kbs[i] == a;
    var j :| 0 <= j < |kbs| && kbs[j] == b;
  }

  lemma CollectedNothing(m: Bindings, kbs: seq<Kb>, now: int)
    requires m == map[]
    ensures Collected(m, [], kbs, 0, now)
  {
  }

  /** One more permission row, joined with its knowledge base if there is one. */
  lemma CollectedMore(m: Bindings, perms: seq<Permission>, kbs: seq<Kb>, now: int, p: Permission, kb: Option<Kb>, m': Bindings)
    requires KbKeys(kbs) && Collected(m, perms, kbs, 0, now)
    requires kb.Some? ==> kb.value in kbs && kb.value.id == p.kb
    requires kb.None? ==> forall k :: k in kbs ==> k.id != p.kb
    requires m' == if kb.Some? && InForce(p, now) && ActorOf(p).Some?
                   then Added(m, kb.value.slug, ActorOf(p).value) else m
    ensures Collected(m', perms + [p], kbs, 0, now)
  {
    hide ActorOf, InForce;
    var more := perms + [p];
    forall slug, a
      ensures a in SetAt(m', slug) <==> ByPermission(more, kbs, now, slug, a) || ByOwnership(kbs[..0], slug, a)
    {
      assert !ByOwnership(kbs[..0], slug, a);
      if a in SetAt(m', slug) {
        if a in SetAt(m, slug) {
          var q, k :| q in perms && k in kbs && q.kb == k.id && k.slug == slug && InForce(q, now) && ActorOf(q) == Some(a);
          assert q in more;
        } else {
          assert p in more && kb.value in kbs;
        }
      }
      if ByPermission(more, kbs, now, slug, a) {
        var q, k :| q in more && k in kbs && q.kb == k.id && k.slug == slug && InForce(q, now) && ActorOf(q) == Some(a);
        if q in perms {
          assert ByPermission(perms, kbs, now, slug, a);
        } else {
          assert q == p;
          SameKb(kbs, k, kb.value);
        }
      }
    }
  }

  method CollectPermissionBindings(perms: seq<Permission>, kbs: seq<Kb>, now: int) returns (m: Bindings)
    requires KbKeys(kbs)
    ensures Collected(m, perms, kbs, 0, now)
  {
    hide Collected;
    m := map[];
    CollectedNothing(m, kbs, now);
    var i := 0;
    while i < |perms|
      invariant 0 <= i <= |perms|
      invariant Collected(m, perms[..i], kbs, 0, now)
    {
      var p := perms[i];
      var kb := FindKb(kbs, p.kb);
      var before := m;
      if kb.Some? && p.active && (p.expiresAt.None? || p.expiresAt.value > now) {
        if p.user.Some? {
          m := Added(m, kb.value.slug, User(p.user.value));
        } else if p.group.Some? {
          m := Added(m, kb.value.slug, Group(p.group.value));
        }
      }
      CollectedMore(before, perms[..i], kbs, now, p, kb, m);
      assert perms[..i + 1] == perms[..i] + [p];
      i := i + 1;
    }
    assert perms[..i] == perms;
  }

  lemma CollectedOwner(m: Bindings, perms: seq<Permission>, kbs: seq<Kb>, n: nat, now: int, m': Bindings)
    requires n < |kbs| && Collected(m, perms, kbs, n, now)
    requires m' == if kbs[n].owner.Some? then Added(m, kbs[n].slug, User(kbs[n].owner.value)) else m
    ensures Collected(m', perms, kbs, n + 1, now)
  {
    var k := kbs[n];
    assert kbs[..n + 1] == kbs[..n] + [k];
    forall slug, a
      ensures a in SetAt(m', slug) <==> ByPermission(perms, kbs, now, slug, a) || ByOwnership(kbs[..n + 1], slug, a)
    {
      assert a in SetAt(m', slug) <==>
             a in SetAt(m, slug) || (k.slug == slug && k.owner.Some? && a == User(k.owner.value));
      if ByOwnership(kbs[..n + 1], slug, a) {
        var kb :| kb in kbs[..n + 1] && kb.slug == slug && kb.owner.Some? && a == User(kb.owner.value);
        assert kb == k || ByOwnership(kbs[..n], slug, a);
      }
      if ByOwnership(kbs[..n], slug, a) {
        var kb :| kb in kbs[..n] && kb.slug == slug && kb.owner.Some? && a == User(kb.owner.value);
        assert kb in kbs[..n + 1];
      }
    }
  }

  method AddOwnerBindings(m0: Bindings, ghost perms: seq<Permission>, kbs: seq<Kb>, ghost now: int) returns (m: Bindings)
    requires Collected(m0, perms, kbs, 0, now)
    ensures Collected(m, perms, kbs, |kbs|, now)
  {
    hide Collected;
    m := m0;
    var i := 0;
    while i < |kbs|
      invariant 0 <= i <= |kbs|
      invariant Collected(m, perms, kbs, i, now)
    {
      var before := m;
      if kbs[i].owner.Some? {
        m := Added(m, kbs[i].slug, User(kbs[i].owner.value));
      }
      CollectedOwner(before, perms, kbs, i, now, m);
      i := i + 1;
    }
  }

  // ---------------------------------------------------------------- creating policies

  ghost predicate Below(t: Tables, n: nat) {
    && (forall p :: p in t.policies ==> p.id < n)
    && (forall s :: s in t.statements ==> s.policy < n)
    && (forall b :: b in t.bindings ==> b.policy < n)
  }

  /** What the new policy does to every check. */
  ghost predicate OnePolicyMore(before: Tables, after: Tables, resource: string, actors: set<Actor>) {
    forall g, a, action, r, allow :: Hits(g, after, a, action, r, allow) <==>
      Hits(g, before, a, action, r, allow) || (allow && action == READ && r == resource && a in actors)
  }

  lemma OwnMatch(g: Glob, id: nat, resource: string, action: string, r: string)
    requires '*' !in resource
    ensures Matches(g, Statement(id, [READ], [resource]), action, r) <==> action == READ && r == resource
  {
    assert [READ][0] == READ && [resource][0] == resource;
    assert READ in [READ] && resource in [resource];
  }

  /** A new policy under a fresh id lets its actors read its resource, and changes no other check, of
    * whatever action and effect. */
  lemma NewPolicyHits(t: Tables, id: nat, name: string, creator: string, resource: string, actors: set<Actor>,
                      bs: seq<Binding>)
    requires Below(t, id) && '*' !in resource
    requires forall b :: b in bs <==> b.policy == id && b.actor in actors
    ensures OnePolicyMore(t, Tables(t.policies + [Policy(id, name, true, true, creator)],
                                    t.statements + [Statement(id, [READ], [resource])], t.bindings + bs),
                          resource, actors)
  {
    var p0, s0 := Policy(id, name, true, true, creator), Statement(id, [READ], [resource]);
    var t' := Tables(t.policies + [p0], t.statements + [s0], t.bindings + bs);
    forall g, a, action, r, allow
      ensures Hits(g, t', a, action, r, allow) <==>
              Hits(g, t, a, action, r, allow) || (allow && action == READ && r == resource && a in actors)
    {
      OwnMatch(g, id, resource, action, r);
      hide Matches;
      if Hits(g, t', a, action, r, allow) {
        var p, s :| p in t'.policies && s in t'.statements && s.policy == p.id
          && p.allow == allow && p.active && Matches(g, s, action, r) && Binding(p.id, a) in t'.bindings;
        if p in t.policies {
          assert s in t.statements && Binding(p.id, a) in t.bindings;
        } else {
          assert s == s0 && Binding(id, a) in bs;
        }
      }
      if Hits(g, t, a, action, r, allow) {
        var p, s :| p in t.policies && s in t.statements && s.policy == p.id
          && p.allow == allow && p.active && Matches(g, s, action, r) && Binding(p.id, a) in t.bindings;
        assert p in t'.policies && s in t'.statements && Binding(p.id, a) in t'.bindings;
      } else if allow && action == READ && r == resource && a in actors {
        assert p0 in t'.policies && s0 in t'.statements && Binding(id, a) in t'.bindings;
      }
    }
  }

  method InsertBindings(t: AccessTables, id: nat, actors: set<Actor>)
    modifies t
    ensures t.policies == old(t.policies) && t.statements == old(t.statements) && t.nextId == old(t.nextId)
    ensures |old(t.bindings)| <= |t.bindings| && t.bindings[..|old(t.bindings)|] == old(t.bindings)
    ensures var bs := t.bindings[|old(t.bindings)|..];
      && |bs| == |actors| && NoDuplicates(bs) && forall b :: b in bs <==> b.policy == id && b.actor in actors
  {
    var todo := actors;
    ghost var bs: seq<Binding> := [];
    while todo != {}
      invariant t.policies == old(t.policies) && t.statements == old(t.statements) && t.nextId == old(t.nextId)
      invariant t.bindings == old(t.bindings) + bs
      invariant todo <= actors && |bs| + |todo| == |actors| && NoDuplicates(bs)
      invariant forall b :: b in bs <==> b.policy == id && b.actor in actors - todo
      decreases |todo|
    {
      var a :| a in todo;
      t.bindings := t.bindings + [Binding(id, a)];
      bs := bs + [Binding(id, a)];
      todo := todo - {a};
    }
    assert t.bindings[|old(t.bindings)|..] == bs;
  }

  lemma FreshBindings(before: seq<Binding>, bs: seq<Binding>, id: nat)
    requires forall b :: b in before ==> b.policy < id
    requires NoDuplicates(bs) && forall b :: b in bs ==> b.policy == id
    ensures NoDuplicates(before) ==> NoDuplicates(before + bs)
  {
    var all := before + bs;
    if NoDuplicates(before) {
      forall i, j | 0 <= i < j < |all| ensures all[i] != all[j] {
        if j < |before| {
          assert before[i] != before[j];
        } else if i < |before| {
          assert all[i] == before[i] && all[j] == bs[j - |before|];
          assert before[i] in before && bs[j - |before|] in bs;
        } else {
          assert bs[i - |before|] != bs[j - |before|];
        }
      }
    }
  }

  /** The bindings of the given slugs let the actor read the resource. */
  ghost predicate Bound(m: Bindings, done: set<string>, a: Actor, r: string) {
    exists slug :: slug in done && slug in m && r == Resource(slug) && a in m[slug]
  }

  ghost function NamesIn(policies: seq<Policy>): set<string> {
    set p | p in policies :: p.name
  }

  ghost function NamesFor(slugs: set<string>): set<string> {
    set slug | slug in slugs :: PolicyName(slug)
  }

  /** The new policies bear the names made from the slugs, every slug's and no other. */
  ghost predicate AddedPolicies(before: seq<Policy>, after: seq<Policy>, done: set<string>) {
    |before| <= |after| && after[..|before|] == before && NamesIn(after[|before|..]) == NamesFor(done)
  }

  /** Every check, of whatever action and effect, comes out as before, but for what the bindings add. */
  ghost predicate AddedGrants(before: Tables, after: Tables, m: Bindings, done: set<string>) {
    forall g, a, action, r, allow :: Hits(g, after, a, action, r, allow) <==>
      Hits(g, before, a, action, r, allow) || (allow && action == READ && Bound(m, done, a, r))
  }

  /** The policies for the given slugs have been added: they grant what the bindings say, bear the
    * migrated names, and bind nobody twice. */
  ghost predicate Created(before: Tables, after: Tables, m: Bindings, done: set<string>) {
    && AddedGrants(before, after, m, done)
    && AddedPolicies(before.policies, after.policies, done)
    && (NoDuplicates(before.bindings) ==> NoDuplicates(after.bindings))
  }

  lemma OneMoreName(before: seq<Policy>, t: seq<Policy>, done: set<string>, slug: string, p: Policy)
    requires AddedPolicies(before, t, done) && p.name == PolicyName(slug)
    ensures AddedPolicies(before, t + [p], done + {slug})
  {
    hide PolicyName;
    var n := |before|;
    var added := t[n..];
    assert (t + [p])[n..] == added + [p] && (t + [p])[..n] == t[..n];
    assert NamesIn(added + [p]) == NamesIn(added) + {p.name};
    assert NamesFor(done + {slug}) == NamesFor(done) + {PolicyName(slug)};
  }

  lemma OneMoreGrant(before: Tables, t: Tables, t': Tables, m: Bindings, done: set<string>, slug: string)
    requires AddedGrants(before, t, m, done) && slug in m
    requires OnePolicyMore(t, t', Resource(slug), m[slug])
    ensures AddedGrants(before, t', m, done + {slug})
  {
    hide Hits, Resource;
    forall g, a, action, r, allow
      ensures Hits(g, t', a, action, r, allow) <==>
              Hits(g, before, a, action, r, allow) || (allow && action == READ && Bound(m, done + {slug}, a, r))
    {
      assert Bound(m, done + {slug}, a, r) <==> Bound(m, done, a, r) || (r == Resource(slug) && a in m[slug]);
    }
  }

  lemma CreatedOne(before: Tables, t: Tables, t': Tables, m: Bindings, done: set<string>, slug: string, p: Policy)
    requires Created(before, t, m, done) && slug in m
    requires t'.policies == t.policies + [p] && p.name == PolicyName(slug)
    requires OnePolicyMore(t, t', Resource(slug), m[slug])
    requires NoDuplicates(t.bindings) ==> NoDuplicates(t'.bindings)
    ensures Created(before, t', m, done + {slug})
  {
    hide OnePolicyMore, NoDuplicates, AddedGrants, AddedPolicies, PolicyName, Resource;
    OneMoreName(before.policies, t.policies, done, slug, p);
    OneMoreGrant(before, t, t', m, done, slug);
  }

  /** The three inserts for one slug. */
  method InsertPolicy(t: AccessTables, name: string, adminId: string, resource: string, actors: set<Actor>)
    requires t.Valid() && NamesUnique(t.Snapshot())
    requires forall p :: p in t.policies ==> p.name != name
    requires '*' !in resource
    modifies t
    ensures t.Valid() && NamesUnique(t.Snapshot()) && t.nextId == old(t.nextId) + 1
    ensures t.policies == old(t.policies) + [Policy(old(t.nextId), name, true, true, adminId)]
    ensures OnePolicyMore(old(t.Snapshot()), t.Snapshot(), resource, actors)
    ensures NoDuplicates(old(t.bindings)) ==> NoDuplicates(t.bindings)
  {
    ghost var t0 := t.Snapshot();
    var id := t.nextId;
    assert Below(t0, id);
    t.nextId := id + 1;
    t.policies := t.policies + [Policy(id, name, true, true, adminId)];
    t.statements := t.statements + [Statement(id, [READ], [resource])];
    InsertBindings(t, id, actors);
    ghost var bs := t.bindings[|t0.bindings|..];
    assert t.bindings == t0.bindings + bs;
    FreshBindings(t0.bindings, bs, id);
    NewPolicyHits(t0, id, name, adminId, resource, actors, bs);
    hide OnePolicyMore;
  }

  /** The policies allow, are active and name the admin as their creator. */
  ghost predicate MadeBy(adminId: string, added: seq<Policy>) {
    forall p :: p in added ==> p.allow && p.active && p.createdBy == adminId
  }

  /** The name is made from one of the slugs, and an older policy bears it. */
  ghost predicate TakenName(policies: seq<Policy>, m: Bindings, name: string) {
    (exists p :: p in policies && p.name == name) && exists slug :: slug in m && name == PolicyName(slug)
  }

  /** The INSERT checks the unique policy name: it fails exactly if some name was taken before. */
  method CreatePolicies(t: AccessTables, adminId: string, m: Bindings) returns (r: Result<(), Error>)
    requires t.Valid() && NamesUnique(t.Snapshot())
    requires forall slug :: slug in m ==> '*' !in slug
    modifies t
    ensures t.Valid() && NamesUnique(t.Snapshot())
    ensures r.Ok? ==> Created(old(t.Snapshot()), t.Snapshot(), m, m.Keys)
    ensures r.Err? <==> exists p, slug :: p in old(t.policies) && slug in m && p.name == PolicyName(slug)
    ensures r.Err? ==> r.error.DuplicatePolicyName? && TakenName(old(t.policies), m, r.error.name)
    ensures |old(t.policies)| <= |t.policies| && MadeBy(adminId, t.policies[|old(t.policies)|..])
  {
    hide Created, NamesUnique, NoDuplicates, OnePolicyMore, PolicyName, Resource;
    var todo := m.Keys;
    ghost var before := t.Snapshot();
    CreatedNothing(before, m);
    while todo != {}
      invariant t.Valid() && NamesUnique(t.Snapshot())
      invariant todo <= m.Keys && Created(before, t.Snapshot(), m, m.Keys - todo)
      invariant |before.policies| <= |t.policies| && MadeBy(adminId, t.policies[|before.policies|..])
      decreases |todo|
    {
      var slug :| slug in todo;
      var name := PolicyName(slug);
      if p :| p in t.policies && p.name == name {
        ClashIsOld(before, t.Snapshot(), m, m.Keys - todo, slug, p);
        return Err(DuplicatePolicyName(name));
      }
      ghost var t0 := t.Snapshot();
      PlainResource(slug);
      InsertPolicy(t, name, adminId, Resource(slug), m[slug]);
      CreatedOne(before, t0, t.Snapshot(), m, m.Keys - todo, slug, Policy(t.nextId - 1, name, true, true, adminId));
      assert (m.Keys - todo) + {slug} == m.Keys - (todo - {slug});
      assert t.policies[|before.policies|..] == t0.policies[|before.policies|..] + [t.policies[|t0.policies|]];
      todo := todo - {slug};
    }
    assert m.Keys - todo == m.Keys;
    NoOldClash(before, t.Snapshot(), m);
    return Ok(());
  }

  /** Where all names are unique and all slugs are named, no old policy has such a name. */
  lemma NoOldClash(before: Tables, after: Tables, m: Bindings)
    requires NamesUnique(after) && Created(before, after, m, m.Keys)
    ensures !exists p, slug :: p in before.policies && slug in m && p.name == PolicyName(slug)
  {
    hide PolicyName, AddedGrants, NoDuplicates;
    var n := |before.policies|;
    forall p, slug | p in before.policies && slug in m ensures p.name != PolicyName(slug) {
      assert PolicyName(slug) in NamesFor(m.Keys);
      var q :| q in after.policies[n..] && q.name == PolicyName(slug);
      var i :| 0 <= i < n && before.policies[i] == p;
      var j :| 0 <= j < |after.policies| - n && after.policies[n..][j] == q;
      assert after.policies[..n][i] == p && after.policies[i] == p && after.policies[n + j] == q;
    }
  }

  lemma CreatedNothing(t: Tables, m: Bindings)
    ensures Created(t, t, m, m.Keys - m.Keys)
  {
    assert t.policies[|t.policies|..] == [];
    assert NamesIn([]) == {} && NamesFor({}) == {};
    assert m.Keys - m.Keys == {};
  }

  lemma PlainResource(slug: string)
    requires '*' !in slug
    ensures '*' !in Resource(slug)
  {
  }

  lemma PolicyNameInjective(s: string, t: string)
    ensures PolicyName(s) == PolicyName(t) ==> s == t
  {
    assert PolicyName(s)[12..] == s && PolicyName(t)[12..] == t;
  }

  lemma ResourceInjective(s: string, t: string)
    ensures Resource(s) == Resource(t) ==> s == t
  {
    assert Resource(s)[3..] == s && Resource(t)[3..] == t;
  }

  /** Names of new policies differ, so a clash is with a policy that was there before. */
  lemma ClashIsOld(before: Tables, t: Tables, m: Bindings, done: set<string>, slug: string, p: Policy)
    requires Created(before, t, m, done) && slug !in done
    requires p in t.policies && p.name == PolicyName(slug)
    ensures p in before.policies
  {
    hide PolicyName, AddedGrants, NoDuplicates;
    var n := |before.policies|;
    assert t.policies == t.policies[..n] + t.policies[n..];
    if p in t.policies[n..] {
      assert p.name in NamesIn(t.policies[n..]);
      var s :| s in done && p.name == PolicyName(s);
      PolicyNameInjective(s, slug);
    }
  }

  // ---------------------------------------------------------------- the migration

  method FindAdminUser(users: seq<UserRow>) returns (admin: Option<string>)
    ensures admin.Some? ==> exists u :: u in users && u.role == "admin" && u.active && u.id == admin.value
    ensures admin.None? ==> forall u :: u in users ==> !(u.role == "admin" && u.active)
  {
    var i := 0;
    while i < |users|
      invariant 0 <= i <= |users|
      invariant forall k :: 0 <= k < i ==> !(users[k].role == "admin" && users[k].active)
    {
      if users[i].role == "admin" && users[i].active { return Some(users[i].id); }
      i := i + 1;
    }
    return None;
  }

  predicate HasAdmin(users: seq<UserRow>) {
    exists u :: u in users && u.role == "admin" && u.active
  }

  /** Part 3 of the upgrade, once slugs are assigned.  The old table is dropped either way. */
  method MigratePermissions(users: seq<UserRow>, kbs: seq<Kb>, perms: seq<Permission>, now: int, t: AccessTables)
    returns (r: Result<(), Error>)
    requires KbKeys(kbs) && t.Valid() && NamesUnique(t.Snapshot())
    modifies t
    ensures t.Valid() && NamesUnique(t.Snapshot())
    ensures !HasAdmin(users) ==> r == Ok(()) && t.Snapshot() == old(t.Snapshot())
    ensures HasAdmin(users) && r.Ok? ==>
              exists m :: Collected(m, perms, kbs, |kbs|, now) && Created(old(t.Snapshot()), t.Snapshot(), m, m.Keys)
    ensures r.Err? <==> HasAdmin(users) && NameClash(old(t.policies), perms, kbs, now)
    ensures r.Err? ==> r.error.DuplicatePolicyName? && ClashesAt(old(t.policies), perms, kbs, now, r.error.name)
    ensures |old(t.policies)| <= |t.policies| && MadeByAdmins(users, t.policies[|old(t.policies)|..])
  {
    var admin := FindAdminUser(users);
    if admin.None? { return Ok(()); }
    var m0 := CollectPermissionBindings(perms, kbs, now);
    var m := AddOwnerBindings(m0, perms, kbs, now);
    ghost var before := t.Snapshot();
    SlugsArePlain(m, perms, kbs, now);
    r := CreatePolicies(t, admin.value, m);
    ClashIsAKeyClash(m, perms, kbs, now, before.policies);
    if r.Err? { TakenIsAClash(m, perms, kbs, now, before.policies, r.error.name); }
  }

  ghost predicate MadeByAdmins(users: seq<UserRow>, added: seq<Policy>) {
    forall p :: p in added ==>
      p.allow && p.active && exists u :: u in users && u.role == "admin" && u.active && u.id == p.createdBy
  }

  /** The name is that of the policy for a knowledge base that somebody may read, and it is taken. */
  ghost predicate ClashesAt(policies: seq<Policy>, perms: seq<Permission>, kbs: seq<Kb>, now: int, name: string) {
    && (exists p :: p in policies && p.name == name)
    && exists kb :: kb in kbs && IsRead(perms, kb, now) && name == "kb-migrated-" + kb.slug
  }

  /** Some readable knowledge base's policy name is taken. */
  ghost predicate NameClash(policies: seq<Policy>, perms: seq<Permission>, kbs: seq<Kb>, now: int) {
    exists name :: ClashesAt(policies, perms, kbs, now, name)
  }

  ghost predicate IsRead(perms: seq<Permission>, kb: Kb, now: int) {
    exists a :: MayRead(perms, kb, now, a)
  }

  /** A slug has bindings exactly if somebody may read its knowledge base. */
  lemma KeysAreReadSlugs(m: Bindings, perms: seq<Permission>, kbs: seq<Kb>, now: int, slug: string)
    requires Collected(m, perms, kbs, |kbs|, now)
    ensures slug in m <==> exists kb :: kb in kbs && kb.slug == slug && IsRead(perms, kb, now)
  {
    hide InForce, ActorOf;
    assert kbs[..|kbs|] == kbs;
    if slug in m {
      var a :| a in m[slug];
      assert a in SetAt(m, slug);
      if ByPermission(perms, kbs, now, slug, a) {
        var p, kb :| p in perms && kb in kbs && p.kb == kb.id && kb.slug == slug && InForce(p, now) && ActorOf(p) == Some(a);
        assert MayRead(perms, kb, now, a) && IsRead(perms, kb, now);
      } else {
        var kb :| kb in kbs && kb.slug == slug && kb.owner.Some? && a == User(kb.owner.value);
        assert MayRead(perms, kb, now, a) && IsRead(perms, kb, now);
      }
    }
    if kb :| kb in kbs && kb.slug == slug && IsRead(perms, kb, now) {
      var a :| MayRead(perms, kb, now, a);
      assert ByPermission(perms, kbs, now, slug, a) || ByOwnership(kbs, slug, a);
      assert a in SetAt(m, slug);
    }
  }

  lemma SlugsArePlain(m: Bindings, perms: seq<Permission>, kbs: seq<Kb>, now: int)
    requires KbKeys(kbs) && Collected(m, perms, kbs, |kbs|, now)
    ensures forall slug :: slug in m ==> '*' !in slug
  {
    hide Collected, IsRead;
    forall slug | slug in m ensures '*' !in slug {
      KeysAreReadSlugs(m, perms, kbs, now, slug);
      var kb :| kb in kbs && kb.slug == slug;
      var i :| 0 <= i < |kbs| && kbs[i] == kb;
    }
  }

  lemma TakenIsAClash(m: Bindings, perms: seq<Permission>, kbs: seq<Kb>, now: int, policies: seq<Policy>, name: string)
    requires Collected(m, perms, kbs, |kbs|, now)
    ensures TakenName(policies, m, name) <==> ClashesAt(policies, perms, kbs, now, name)
  {
    assert forall slug :: PolicyName(slug) == "kb-migrated-" + slug;
    hide Collected, IsRead, PolicyName;
    if slug :| slug in m && name == PolicyName(slug) {
      KeysAreReadSlugs(m, perms, kbs, now, slug);
    }
    if kb :| kb in kbs && IsRead(perms, kb, now) && name == "kb-migrated-" + kb.slug {
      KeysAreReadSlugs(m, perms, kbs, now, kb.slug);
    }
  }

  lemma ClashIsAKeyClash(m: Bindings, perms: seq<Permission>, kbs: seq<Kb>, now: int, policies: seq<Policy>)
    requires Collected(m, perms, kbs, |kbs|, now)
    ensures (exists p, slug :: p in policies && slug in m && p.name == PolicyName(slug))
            <==> NameClash(policies, perms, kbs, now)
  {
    hide Collected, ClashesAt, PolicyName;
    forall name ensures TakenName(policies, m, name) <==> ClashesAt(policies, perms, kbs, now, name) {
      TakenIsAClash(m, perms, kbs, now, policies, name);
    }
    if p, slug :| p in policies && slug in m && p.name == PolicyName(slug) {
      assert TakenName(policies, m, p.name);
    }
    if name :| ClashesAt(policies, perms, kbs, now, name) {
      assert TakenName(policies, m, name);
    }
  }

  // ---------------------------------------------------------------- meaning is preserved

  /** A new policy binds the actor to the resource exactly if the actor could read the knowledge base;
    * since slugs differ, nobody gains another one. */
  lemma BoundIsMayRead(m: Bindings, perms: seq<Permission>, kbs: seq<Kb>, now: int, kb: Kb, a: Actor)
    requires KbKeys(kbs) && kb in kbs && Collected(m, perms, kbs, |kbs|, now)
    ensures Bound(m, m.Keys, a, Resource(kb.slug)) <==> MayRead(perms, kb, now, a)
  {
    hide InForce, ActorOf;
    assert kbs[..|kbs|] == kbs;
    var resource := Resource(kb.slug);
    if Bound(m, m.Keys, a, resource) {
      var slug :| slug in m.Keys && resource == Resource(slug) && a in m[slug];
      ResourceInjective(slug, kb.slug);
      assert a in SetAt(m, kb.slug);
      if ByPermission(perms, kbs, now, kb.slug, a) {
        var p, k :| p in perms && k in kbs && p.kb == k.id && k.slug == kb.slug && InForce(p, now) && ActorOf(p) == Some(a);
        SameKb(kbs, k, kb);
      } else {
        var k :| k in kbs && k.slug == kb.slug && k.owner.Some? && a == User(k.owner.value);
        SameKb(kbs, k, kb);
      }
    }
    if MayRead(perms, kb, now, a) {
      assert ByPermission(perms, kbs, now, kb.slug, a) || ByOwnership(kbs, kb.slug, a);
      assert a in SetAt(m, kb.slug);
    }
  }

  /** Some of the actors could read the knowledge base under the old table. */
  ghost predicate OneMayRead(perms: seq<Permission>, kb: Kb, now: int, actors: set<Actor>) {
    exists a :: a in actors && MayRead(perms, kb, now, a)
  }

  /** With an active admin, a user passes the check for a knowledge base afterwards exactly if no older
    * policy denies it to the user or to one of the user's groups, and an older policy allows it or the
    * old table did. */
  lemma MigrationPreservesAccess(g: Glob, m: Bindings, perms: seq<Permission>, kbs: seq<Kb>, now: int,
                                 before: Tables, after: Tables, kb: Kb, actors: set<Actor>)
    requires KbKeys(kbs) && kb in kbs
    requires Collected(m, perms, kbs, |kbs|, now) && Created(before, after, m, m.Keys)
    ensures var r := Resource(kb.slug);
      Allowed(g, after, actors, READ, r) <==>
      !HitsOne(g, before, actors, READ, r, false)
      && (HitsOne(g, before, actors, READ, r, true) || OneMayRead(perms, kb, now, actors))
  {
    hide Hits, MayRead, Collected, AddedPolicies, NoDuplicates, Bound, Resource;
    forall a ensures Bound(m, m.Keys, a, Resource(kb.slug)) <==> MayRead(perms, kb, now, a) {
      BoundIsMayRead(m, perms, kbs, now, kb, a);
    }
  }

  predicate IsAdmin(users: seq<UserRow>, user: string) {
    exists u :: u in users && u.id == user && u.role == "admin" && u.active
  }

  /** PolicyCache.check for any user: admins pass. */
  ghost predicate CanRead(g: Glob, t: Tables, users: seq<UserRow>, user: string, groups: set<string>, kb: Kb) {
    IsAdmin(users, user) || Allowed(g, t, ActorsOf(user, groups), READ, Resource(kb.slug))
  }

  /** Everybody whom the old table let read a knowledge base can read it. */
  ghost predicate NobodyLoses(g: Glob, t: Tables, users: seq<UserRow>, groupsOf: string -> set<string>,
                              perms: seq<Permission>, kbs: seq<Kb>, now: int) {
    forall kb, user :: kb in kbs && OneMayRead(perms, kb, now, ActorsOf(user, groupsOf(user))) ==>
      CanRead(g, t, users, user, groupsOf(user), kb)
  }

  /** The same, asked of the tables before the migration: no older policy denies such a user, and
    * without an active admin an older one allows it already. */
  ghost predicate NobodyAtRisk(g: Glob, before: Tables, users: seq<UserRow>, groupsOf: string -> set<string>,
                               perms: seq<Permission>, kbs: seq<Kb>, now: int) {
    forall kb, user :: kb in kbs && OneMayRead(perms, kb, now, ActorsOf(user, groupsOf(user))) ==>
      || IsAdmin(users, user)
      || (var actors, r := ActorsOf(user, groupsOf(user)), Resource(kb.slug);
          !HitsOne(g, before, actors, READ, r, false)
          && (HasAdmin(users) || HitsOne(g, before, actors, READ, r, true)))
  }

  /** Nobody loses access exactly when no older policy denies it to somebody who has it, and there is
    * an active admin or no access depended on the old table: without an admin nothing is migrated,
    * and the table is dropped all the same. */
  lemma NobodyLosesAccessIff(g: Glob, users: seq<UserRow>, groupsOf: string -> set<string>, m: Bindings,
                             perms: seq<Permission>, kbs: seq<Kb>, now: int, before: Tables, after: Tables)
    requires KbKeys(kbs)
    requires HasAdmin(users) ==> Collected(m, perms, kbs, |kbs|, now) && Created(before, after, m, m.Keys)
    requires !HasAdmin(users) ==> after == before
    ensures NobodyLoses(g, after, users, groupsOf, perms, kbs, now)
            <==> NobodyAtRisk(g, before, users, groupsOf, perms, kbs, now)
  {
    hide Hits, HitsOne, OneMayRead, ActorsOf, IsAdmin, Resource, Collected, Created;
    forall kb, user | kb in kbs && OneMayRead(perms, kb, now, ActorsOf(user, groupsOf(user)))
      ensures var actors, r := ActorsOf(user, groupsOf(user)), Resource(kb.slug);
        Allowed(g, after, actors, READ, r) <==>
        !HitsOne(g, before, actors, READ, r, false)
        && (HasAdmin(users) || HitsOne(g, before, actors, READ, r, true))
    {
      if HasAdmin(users) {
        MigrationPreservesAccess(g, m, perms, kbs, now, before, after, kb, ActorsOf(user, groupsOf(user)));
      }
    }
  }

  /** A deny that was there before wins over the migrated policy: an admin is there, the permission is
    * in force, and the user cannot read the knowledge base afterwards. */
  lemma OlderDenyLosesAccess(g: Glob, user: string, groups: set<string>, now: int, m: Bindings, after: Tables)
    ensures var users, kb := [UserRow("root", "admin", true)], Kb("k", "x", None);
      var perm := Permission("k", Some(user), None, true, None);
      var before := Tables([Policy(0, "no-x", false, true, "root")], [Statement(0, [READ], [Resource("x")])],
                           [Binding(0, User(user))]);
      && HasAdmin(users) && KbKeys([kb]) && NamesUnique(before)
      && OneMayRead([perm], kb, now, ActorsOf(user, groups))
      && (user != "root" && Collected(m, [perm], [kb], 1, now) && Created(before, after, m, m.Keys) ==>
            !CanRead(g, after, users, user, groups, kb))
  {
    var users, kb := [UserRow("root", "admin", true)], Kb("k", "x", None);
    var perm := Permission("k", Some(user), None, true, None);
    var p, s := Policy(0, "no-x", false, true, "root"), Statement(0, [READ], [Resource("x")]);
    var before := Tables([p], [s], [Binding(0, User(user))]);
    assert users[0] in users;
    assert KbKeys([kb]);
    assert perm in [perm] && User(user) in ActorsOf(user, groups);
    assert MayRead([perm], kb, now, User(user));
    PlainResource("x");
    OwnMatch(g, 0, Resource("x"), READ, Resource("x"));
    assert p in before.policies && s in before.statements && Binding(0, User(user)) in before.bindings;
    assert Hits(g, before, User(user), READ, Resource("x"), false);
    if Collected(m, [perm], [kb], 1, now) && Created(before, after, m, m.Keys) {
      hide Hits, Collected, Created, MayRead;
      MigrationPreservesAccess(g, m, [perm], [kb], now, before, after, kb, ActorsOf(user, groups));
    }
  }

  // ---------------------------------------------------------------- slugs and permissions together

  /** A knowledge base before it has a slug. */
  datatype KbRow = KbRow(id: string, name: string, owner: Option<string>)

  function Names(rows: seq<KbRow>): (names: seq<string>)
    ensures |names| == |rows| && forall i :: 0 <= i < |rows| ==> names[i] == rows[i].name
  {
    seq(|rows|, i requires 0 <= i < |rows| => rows[i].name)
  }

  function WithSlugs(rows: seq<KbRow>, slugs: seq<string>): (kbs: seq<Kb>)
    requires |slugs| == |rows|
    ensures |kbs| == |rows|
    ensures forall i :: 0 <= i < |rows| ==> kbs[i] == Kb(rows[i].id, slugs[i], rows[i].owner)
  {
    seq(|rows|, i requires 0 <= i < |rows| => Kb(rows[i].id, slugs[i], rows[i].owner))
  }

  /** The assigned slugs are keys, as the permission migration needs them. */
  lemma AssignedSlugsAreKeys(rows: seq<KbRow>, slugs: seq<string>)
    requires forall i, j :: 0 <= i < j < |rows| ==> rows[i].id != rows[j].id
    requires |slugs| == |rows| && Slugs.Assigned(Names(rows), slugs)
    ensures KbKeys(WithSlugs(rows, slugs))
  {
    forall i, j | 0 <= i < j < |rows| ensures slugs[i] != slugs[j] {
      Slugs.AssignedAreDistinct(Names(rows), slugs, i, j);
    }
    forall i | 0 <= i < |rows| ensures '*' !in slugs[i] {
      Slugs.AssignedIsSlug(Names(rows), slugs, i);
    }
  }

  /** The check for one knowledge base, in terms of the tables before. */
  ghost predicate AccessKept(g: Glob, before: Tables, after: Tables, perms: seq<Permission>, now: int, kb: Kb,
                             actors: set<Actor>) {
    var r := "kb:" + kb.slug;
    Allowed(g, after, actors, "kb.read", r) <==>
    !HitsOne(g, before, actors, "kb.read", r, false)
    && (HitsOne(g, before, actors, "kb.read", r, true) || OneMayRead(perms, kb, now, actors))
  }

  /** The knowledge bases with the slugs that their names get in order. */
  ghost predicate Slugged(rows: seq<KbRow>, kbs: seq<Kb>) {
    exists slugs :: |slugs| == |rows| && Slugs.Assigned(Names(rows), slugs) && kbs == WithSlugs(rows, slugs)
  }

  /** There is one way to slug the knowledge bases. */
  lemma SluggedIsUnique(rows: seq<KbRow>, kbs: seq<Kb>, kbs': seq<Kb>)
    requires Slugged(rows, kbs) && Slugged(rows, kbs')
    ensures kbs == kbs'
  {
    hide Slugs.Assigned;
    var slugs :| |slugs| == |rows| && Slugs.Assigned(Names(rows), slugs) && kbs == WithSlugs(rows, slugs);
    var slugs' :| |slugs'| == |rows| && Slugs.Assigned(Names(rows), slugs') && kbs' == WithSlugs(rows, slugs');
    Slugs.AssignedIsSlugsOf(Names(rows), slugs);
    Slugs.AssignedIsSlugsOf(Names(rows), slugs');
  }

  /** The name of a policy for a readable knowledge base is taken, once slugs are assigned. */
  ghost predicate UpgradeClashes(policies: seq<Policy>, rows: seq<KbRow>, perms: seq<Permission>, now: int) {
    exists kbs :: Slugged(rows, kbs) && NameClash(policies, perms, kbs, now)
  }

  /** Part 3 of the upgrade from end to end: slugs for all knowledge bases, then the permissions.  It
    * fails exactly if a slug is too long, or there is an active admin and a policy name is taken.
    * Otherwise, with an admin, a user can read a knowledge base exactly if no older policy denies it,
    * and an older one or the old table allowed it; without an admin the tables stay as they were. */
  method UpgradeKnowledgeBases(rows: seq<KbRow>, users: seq<UserRow>, perms: seq<Permission>, now: int, t: AccessTables)
    returns (r: Result<seq<Kb>, Error>)
    requires forall i, j :: 0 <= i < j < |rows| ==> rows[i].id != rows[j].id
    requires t.Valid() && NamesUnique(t.Snapshot()) && NoDuplicates(t.bindings)
    modifies t
    ensures t.Valid() && NamesUnique(t.Snapshot())
    ensures r.Err? && r.error.SlugTooLong? <==> Slugs.Overflows(Names(rows))
    ensures r.Err? && r.error.SlugTooLong? ==> Slugs.OverflowsWith(Names(rows), r.error.slug)
    ensures r.Err? && r.error.DuplicatePolicyName? <==>
              !Slugs.Overflows(Names(rows)) && HasAdmin(users) && UpgradeClashes(old(t.policies), rows, perms, now)
    ensures r.Err? && r.error.DuplicatePolicyName? ==>
              exists kbs :: Slugged(rows, kbs) && ClashesAt(old(t.policies), perms, kbs, now, r.error.name)
    ensures r.Ok? ==> Slugged(rows, r.value) && KbKeys(r.value) && NoDuplicates(t.bindings)
    ensures r.Ok? && HasAdmin(users) ==>
              forall g, kb, actors :: kb in r.value ==>
                AccessKept(g, old(t.Snapshot()), t.Snapshot(), perms, now, kb, actors)
    ensures !HasAdmin(users) || (r.Err? && r.error.SlugTooLong?) ==> t.Snapshot() == old(t.Snapshot())
    ensures |old(t.policies)| <= |t.policies| && MadeByAdmins(users, t.policies[|old(t.policies)|..])
  {
    hide Hits, MayRead, Slugs.Assigned, NameClash, ClashesAt;
    var slugs := Slugs.AssignSlugs(Names(rows));
    if slugs.Err? { return Err(SlugTooLong(slugs.error.slug)); }
    var kbs := WithSlugs(rows, slugs.value);
    AssignedSlugsAreKeys(rows, slugs.value);
    ghost var before := t.Snapshot();
    assert Slugged(rows, kbs);
    forall other | Slugged(rows, other) ensures other == kbs { SluggedIsUnique(rows, kbs, other); }
    hide Slugged;
    var migrated := MigratePermissions(users, kbs, perms, now, t);
    if migrated.Err? { return Err(migrated.error); }
    if HasAdmin(users) {
      ghost var m :| Collected(m, perms, kbs, |kbs|, now) && Created(before, t.Snapshot(), m, m.Keys);
      forall g, kb, actors | kb in kbs ensures AccessKept(g, before, t.Snapshot(), perms, now, kb, actors) {
        MigrationPreservesAccess(g, m, perms, kbs, now, before, t.Snapshot(), kb, actors);
      }
    }
    return Ok(kbs);
  }
}
