/** slugify, and the loop of migration 008 that gives every knowledge base its own slug. */
module Slugs {
  import opened Wrappers

  // ---------------------------------------------------------------- slugify, after ASCII folding

  predicate IsSlugChar(c: char) {
    'a' <= c <= 'z' || '0' <= c <= '9'
  }

  function LowerChar(c: char): char {
    if 'A' <= c <= 'Z' then c + 32 as char else c
  }

  function Lower(s: string): (r: string)
    ensures |r| == |s| && forall i :: 0 <= i < |s| ==> r[i] == LowerChar(s[i])
  {
    seq(|s|, i requires 0 <= i < |s| => LowerChar(s[i]))
  }

  /** re.sub("[^a-z0-9]+", "-", s): every maximal run of other characters becomes one hyphen. */
  function Hyphenated(s: string): string {
    if s == "" then ""
    else
      var n := |s| - 1;
      var before := Hyphenated(s[..n]);
      if IsSlugChar(s[n]) then before + [s[n]]
      else if n > 0 && !IsSlugChar(s[n - 1]) then before
      else before + "-"
  }

  function StripLeft(s: string): string {
    if s != "" && s[0] == '-' then StripLeft(s[1..]) else s
  }

  function StripRight(s: string): string {
    if s != "" && s[|s| - 1] == '-' then StripRight(s[..|s| - 1]) else s
  }

  function Take(s: string, n: nat): string {
    if |s| <= n then s else s[..n]
  }

  function Slugify(value: string, maxLength: nat): string {
    StripRight(StripLeft(Hyphenated(Take(Lower(value), maxLength))))
  }

  /** Lower-case letters, digits, and single inner hyphens. */
  ghost predicate IsSlug(s: string) {
    && (forall i :: 0 <= i < |s| ==> IsSlugChar(s[i]) || s[i] == '-')
    && (forall i :: 0 <= i < |s| - 1 ==> s[i] != '-' || s[i + 1] != '-')
    && (s != "" ==> s[0] != '-' && s[|s| - 1] != '-')
  }

  ghost predicate SingleHyphens(s: string) {
    && (forall i :: 0 <= i < |s| ==> IsSlugChar(s[i]) || s[i] == '-')
    && (forall i :: 0 <= i < |s| - 1 ==> s[i] != '-' || s[i + 1] != '-')
  }

  lemma {:induction false} HyphenatedShape(s: string)
    ensures var r := Hyphenated(s);
      && SingleHyphens(r) && |r| <= |s|
      && (r != "" <==> s != "")
      && (s != "" ==> (r[|r| - 1] == '-' <==> !IsSlugChar(s[|s| - 1])))
      && ((exists i :: 0 <= i < |s| && IsSlugChar(s[i])) <==> exists i :: 0 <= i < |r| && IsSlugChar(r[i]))
    decreases |s|
  {
    if s != "" {
      var n := |s| - 1;
      var before, r := Hyphenated(s[..n]), Hyphenated(s);
      HyphenatedShape(s[..n]);
      if IsSlugChar(s[n]) {
        assert r[|r| - 1] == s[n];
      } else {
        if i :| 0 <= i < |s| && IsSlugChar(s[i]) {
          assert IsSlugChar(s[..n][i]);
          var j :| 0 <= j < |before| && IsSlugChar(before[j]);
          assert r[j] == before[j];
        }
        if j :| 0 <= j < |r| && IsSlugChar(r[j]) {
          assert IsSlugChar(before[j]);
          var i :| 0 <= i < n && IsSlugChar(s[..n][i]);
          assert IsSlugChar(s[i]);
        }
      }
    }
  }

  /** Stripping a text with single hyphens removes at most one at each end. */
  lemma StripShape(s: string)
    requires SingleHyphens(s)
    ensures var r := StripRight(StripLeft(s));
      && IsSlug(r) && |r| <= |s|
      && (r != "" <==> exists i :: 0 <= i < |s| && IsSlugChar(s[i]))
  {
    var l := if s != "" && s[0] == '-' then s[1..] else s;
    assert StripLeft(s) == l;
    var r := if l != "" && l[|l| - 1] == '-' then l[..|l| - 1] else l;
    assert StripRight(l) == r;
    if r != "" {
      assert IsSlugChar(r[0]);
      assert r[0] == l[0] && (l[0] == s[0] || l[0] == s[1]);
    }
  }

  /** What slugify yields: a slug of at most max_length characters, empty exactly when the truncated
    * text has no letter or digit. */
  lemma SlugifyYieldsSlug(value: string, maxLength: nat)
    ensures var r := Slugify(value, maxLength);
      && IsSlug(r) && |r| <= maxLength
      && (r != "" <==> exists i :: 0 <= i < |value| && i < maxLength && IsSlugChar(LowerChar(value[i])))
  {
    var t := Take(Lower(value), maxLength);
    HyphenatedShape(t);
    StripShape(Hyphenated(t));
    if i :| 0 <= i < |value| && i < maxLength && IsSlugChar(LowerChar(value[i])) {
      assert IsSlugChar(t[i]);
    }
    if i :| 0 <= i < |t| && IsSlugChar(t[i]) {
      assert IsSlugChar(LowerChar(value[i]));
    }
  }

  lemma {:induction false} SlugsHyphenateToThemselves(s: string)
    requires SingleHyphens(s)
    ensures Hyphenated(s) == s
    decreases |s|
  {
    if s != "" {
      SlugsHyphenateToThemselves(s[..|s| - 1]);
      assert s == s[..|s| - 1] + [s[|s| - 1]];
    }
  }

  lemma SlugIsItsOwn(s: string, maxLength: nat)
    requires IsSlug(s) && |s| <= maxLength
    ensures Slugify(s, maxLength) == s
  {
    assert Lower(s) == s;
    SlugsHyphenateToThemselves(s);
  }

  /** A short enough slug is its own slug; so slugify is idempotent. */
  lemma SlugifyIdempotent(value: string, maxLength: nat)
    ensures Slugify(Slugify(value, maxLength), maxLength) == Slugify(value, maxLength)
  {
    SlugifyYieldsSlug(value, maxLength);
    SlugIsItsOwn(Slugify(value, maxLength), maxLength);
  }

  // ---------------------------------------------------------------- which characters a slug keeps

  /** The characters of the text that a slug keeps, in order. */
  function Kept(s: string): string {
    if s == "" then ""
    else
      var c, before := s[|s| - 1], Kept(s[..|s| - 1]);
      if 'a' <= c <= 'z' || '0' <= c <= '9' then before + [c] else before
  }

  lemma {:induction false} HyphenatedKeeps(s: string)
    ensures Kept(Hyphenated(s)) == Kept(s)
    decreases |s|
  {
    if s != "" {
      var n := |s| - 1;
      var before := Hyphenated(s[..n]);
      HyphenatedKeeps(s[..n]);
      assert (before + [s[n]])[..|before|] == before && (before + "-")[..|before|] == before;
    }
  }

  /** A text with no letter or digit on either side of its end, and one that begins the other way. */
  ghost predicate EndsInLetter(s: string) {
    s == "" || IsSlugChar(s[|s| - 1])
  }

  ghost predicate BeginsWithLetter(s: string) {
    s == "" || IsSlugChar(s[0])
  }

  lemma {:induction false} RunIsOneHyphen(x: string, run: string)
    requires EndsInLetter(x) && run != "" && forall i :: 0 <= i < |run| ==> !IsSlugChar(run[i])
    ensures Hyphenated(x + run) == Hyphenated(x) + "-"
    decreases |run|
  {
    var n := |run| - 1;
    var t := x + run;
    assert t[..|t| - 1] == x + run[..n] && t[|t| - 1] == run[n];
    if n > 0 {
      RunIsOneHyphen(x, run[..n]);
      assert t[|t| - 2] == run[n - 1];
    } else {
      assert x + run[..0] == x;
      assert |t| > 1 ==> t[|t| - 2] == x[|x| - 1];
    }
  }

  /** A run of other characters between two texts, or before or after one, becomes one hyphen, and does
    * nothing else to either. */
  lemma {:induction false} RunsBecomeHyphens(x: string, run: string, y: string)
    requires EndsInLetter(x) && BeginsWithLetter(y)
    requires run != "" && forall i :: 0 <= i < |run| ==> !IsSlugChar(run[i])
    ensures Hyphenated(x + run + y) == Hyphenated(x) + "-" + Hyphenated(y)
    decreases |y|
  {
    if y == "" {
      RunIsOneHyphen(x, run);
      assert x + run + y == x + run && Hyphenated(x) + "-" + Hyphenated(y) == Hyphenated(x) + "-";
    } else {
      var n := |y| - 1;
      var t := x + run + y;
      assert t[..|t| - 1] == x + run + y[..n] && t[|t| - 1] == y[n];
      RunsBecomeHyphens(x, run, y[..n]);
      assert n > 0 ==> t[|t| - 2] == y[n - 1];
      assert forall u: string :: Hyphenated(x) + "-" + (Hyphenated(y[..n]) + u) == (Hyphenated(x) + "-" + Hyphenated(y[..n])) + u;
    }
  }

  lemma KeptOfPart(s: string, from: nat, to: nat)
    requires from <= to <= |s|
    requires forall i :: (0 <= i < from || to <= i < |s|) ==> s[i] == '-'
    ensures Kept(s[from..to]) == Kept(s)
  {
    hide Kept;
    assert s == s[..from] + s[from..to] + s[to..];
    KeptLaw(s[..from] + s[from..to], s[to..]);
    KeptLaw(s[..from], s[from..to]);
    KeptNone(s[..from]);
    KeptNone(s[to..]);
  }

  lemma {:induction false} KeptNone(s: string)
    requires forall i :: 0 <= i < |s| ==> s[i] == '-'
    ensures Kept(s) == ""
    decreases |s|
  {
    if s != "" { KeptNone(s[..|s| - 1]); }
  }

  lemma {:induction false} KeptLaw(x: string, y: string)
    ensures Kept(x + y) == Kept(x) + Kept(y)
    decreases |y|
  {
    if y == "" {
      assert x + y == x;
    } else {
      var n := |y| - 1;
      assert (x + y)[..|x + y| - 1] == x + y[..n];
      KeptLaw(x, y[..n]);
    }
  }

  /** Stripping takes hyphens off the two ends and nothing else. */
  lemma StripsHyphens(s: string) returns (from: nat, to: nat)
    ensures from <= to <= |s| && StripRight(StripLeft(s)) == s[from..to]
    ensures forall i :: (0 <= i < from || to <= i < |s|) ==> s[i] == '-'
  {
    from := StripsLeft(s);
    var l := StripLeft(s);
    var n := StripsRight(l);
    to := from + n;
    assert forall i :: to <= i < |s| ==> s[i] == l[i - from];
  }

  lemma {:induction false} StripsLeft(s: string) returns (from: nat)
    ensures from <= |s| && StripLeft(s) == s[from..] && forall i :: 0 <= i < from ==> s[i] == '-'
    decreases |s|
  {
    from := 0;
    if s != "" && s[0] == '-' {
      var more := StripsLeft(s[1..]);
      from := more + 1;
      assert forall i :: 1 <= i < from ==> s[i] == s[1..][i - 1];
    }
  }

  lemma {:induction false} StripsRight(s: string) returns (to: nat)
    ensures to <= |s| && StripRight(s) == s[..to] && forall i :: to <= i < |s| ==> s[i] == '-'
    decreases |s|
  {
    to := |s|;
    if s != "" && s[|s| - 1] == '-' {
      to := StripsRight(s[..|s| - 1]);
    }
  }

  /** The first characters of the value, the capitals among them as small letters. */
  ghost predicate LoweredStart(value: string, maxLength: nat, t: string) {
    && |t| == (if |value| < maxLength then |value| else maxLength)
    && forall i :: 0 <= i < |t| ==>
         if 'A' <= value[i] <= 'Z' then t[i] as int - 'a' as int == value[i] as int - 'A' as int else t[i] == value[i]
  }

  /** A slug keeps the letters and digits of the lowered start of the value, all of them and in order;
    * it is the hyphenated text without the hyphens at its ends. */
  lemma SlugKeepsLetters(value: string, maxLength: nat) returns (t: string, from: nat, to: nat)
    ensures LoweredStart(value, maxLength, t)
    ensures Kept(Slugify(value, maxLength)) == Kept(t)
    ensures from <= to <= |Hyphenated(t)| && Slugify(value, maxLength) == Hyphenated(t)[from..to]
    ensures forall i :: (0 <= i < from || to <= i < |Hyphenated(t)|) ==> Hyphenated(t)[i] == '-'
  {
    t := Take(Lower(value), maxLength);
    from, to := StripsHyphens(Hyphenated(t));
    KeptOfPart(Hyphenated(t), from, to);
    HyphenatedKeeps(t);
  }

  // ---------------------------------------------------------------- numbered slugs

  function Decimal(n: nat): (s: string)
    ensures s != ""
    ensures forall i :: 0 <= i < |s| ==> '0' <= s[i] <= '9'
  {
    var d := [('0' as int + n % 10) as char];
    if n < 10 then d else Decimal(n / 10) + d
  }

  lemma {:induction false} DecimalInjective(m: nat, n: nat)
    requires Decimal(m) == Decimal(n)
    ensures m == n
    decreases m
  {
    var dm, dn := Decimal(m), Decimal(n);
    assert dm[|dm| - 1] as int == '0' as int + m % 10;
    assert dn[|dn| - 1] as int == '0' as int + n % 10;
    if m < 10 || n < 10 {
      assert |dm| == 1 || |dn| == 1;
    } else {
      assert dm[..|dm| - 1] == Decimal(m / 10) && dn[..|dn| - 1] == Decimal(n / 10);
      DecimalInjective(m / 10, n / 10);
    }
  }

  /** The suffix spells the number, without a leading zero. */
  lemma {:induction false} DecimalIs(n: nat)
    ensures DecimalValue(Decimal(n)) == n && (n > 0 ==> Decimal(n)[0] != '0')
    decreases n
  {
    var s := Decimal(n);
    if n >= 10 {
      DecimalIs(n / 10);
      assert s[..|s| - 1] == Decimal(n / 10);
    } else {
      assert s[..|s| - 1] == "";
    }
  }

  /** The k-th name tried for a base: the base itself, then base-2, base-3, ... */
  function Candidate(base: string, k: nat): string
    requires k >= 1
  {
    if k == 1 then base else base + "-" + Decimal(k)
  }

  lemma CandidatesDiffer(base: string, j: nat, k: nat)
    requires 1 <= j && 1 <= k && j != k
    ensures Candidate(base, j) != Candidate(base, k)
  {
    if j > 1 && k > 1 && Candidate(base, j) == Candidate(base, k) {
      assert Candidate(base, j)[|base| + 1..] == Decimal(j);
      assert Candidate(base, k)[|base| + 1..] == Decimal(k);
      DecimalInjective(j, k);
    }
  }

  ghost predicate TriedBefore(base: string, k: nat, seen: set<string>)
    requires k >= 1
  {
    forall j {:trigger Candidate(base, j)} :: 1 <= j < k ==> Candidate(base, j) in seen
  }

  /** The slug a name gets: the first candidate that is not taken, after at most |seen| taken ones. */
  ghost predicate FirstFree(base: string, seen: set<string>, slug: string) {
    exists k {:trigger Candidate(base, k)} ::
      1 <= k <= |seen| + 1 && slug == Candidate(base, k) && slug !in seen && TriedBefore(base, k, seen)
  }

  method FreeSlug(base: string, seen: set<string>) returns (slug: string)
    ensures FirstFree(base, seen, slug)
  {
    slug := base;
    var suffix := 2;
    ghost var tried: set<string> := {};
    while slug in seen
      invariant suffix >= 2 && slug == Candidate(base, suffix - 1)
      invariant TriedBefore(base, suffix - 1, seen)
      invariant tried <= seen && |tried| == suffix - 2
      invariant forall x :: x in tried ==> exists j {:trigger Candidate(base, j)} :: 1 <= j < suffix - 1 && x == Candidate(base, j)
      decreases |seen - tried|
    {
      assert slug !in tried by {
        forall j | 1 <= j < suffix - 1 ensures Candidate(base, j) != slug {
          CandidatesDiffer(base, j, suffix - 1);
        }
      }
      assert seen - (tried + {slug}) == (seen - tried) - {slug};
      tried := tried + {slug};
      slug := base + "-" + Decimal(suffix);
      suffix := suffix + 1;
    }
    SubsetSize(tried, seen);
    assert slug == Candidate(base, suffix - 1);
  }

  lemma SubsetSize(a: set<string>, b: set<string>)
    requires a <= b
    ensures |a| <= |b|
  {
    assert b == a + (b - a);
  }

  const SLUG_COLUMN: nat := 100

  function BaseSlug(name: string): (s: string)
    ensures s != ""
  {
    var s := Slugify(name, SLUG_COLUMN);
    if s == "" then "kb" else s
  }

  function Elements(slugs: seq<string>): set<string> {
    set i | 0 <= i < |slugs| :: slugs[i]
  }

  /** Each slug is the first one free for its name, given the slugs before it. */
  ghost predicate Assigned(names: seq<string>, slugs: seq<string>) {
    && |slugs| <= |names|
    && forall i :: 0 <= i < |slugs| ==> FirstFree(BaseSlug(names[i]), Elements(slugs[..i]), slugs[i])
  }

  datatype Error = ValueTooLong(slug: string)

  /** The slug does not fit the column, and is the one assigned after some others. */
  ghost predicate OverflowsWith(names: seq<string>, slug: string) {
    |slug| > 100 && exists slugs :: Assigned(names, slugs) && slugs != [] && slugs[|slugs| - 1] == slug
  }

  /** The loop over knowledge bases in creation order.  The column holds 100 characters, so an UPDATE
    * with a longer slug fails and with it the migration: exactly when some slug is too long. */
  method AssignSlugs(names: seq<string>) returns (r: Result<seq<string>, Error>)
    ensures r.Ok? ==> Assigned(names, r.value) && |r.value| == |names|
                      && forall i :: 0 <= i < |names| ==> |r.value[i]| <= SLUG_COLUMN
    ensures r.Err? ==> OverflowsWith(names, r.error.slug)
    ensures r.Err? <==> Overflows(names)
  {
    assert Elements([]) == {} && Assigned(names, []) && SLUG_COLUMN == 100;
    hide FirstFree, BaseSlug, Overflows, OverflowsWith, Elements, Assigned;
    var slugs: seq<string> := [];
    var seen: set<string> := {};
    var i := 0;
    while i < |names|
      invariant 0 <= i <= |names| && |slugs| == i
      invariant Assigned(names, slugs)
      invariant seen == Elements(slugs)
      invariant forall k :: 0 <= k < i ==> |slugs[k]| <= SLUG_COLUMN
    {
      var slug := FreeSlug(BaseSlug(names[i]), seen);
      AssignedAppend(names, slugs, slug);
      if |slug| > SLUG_COLUMN {
        LongSlugOverflows(names, slugs + [slug], i);
        return Err(ValueTooLong(slug));
      }
      seen := seen + {slug};
      slugs := slugs + [slug];
      i := i + 1;
    }
    ShortSlugsFit(names, slugs);
    return Ok(slugs);
  }

  lemma AssignedAppend(names: seq<string>, slugs: seq<string>, slug: string)
    requires Assigned(names, slugs) && |slugs| < |names|
    requires FirstFree(BaseSlug(names[|slugs|]), Elements(slugs), slug)
    ensures Assigned(names, slugs + [slug])
    ensures Elements(slugs + [slug]) == Elements(slugs) + {slug}
  {
    hide FirstFree, BaseSlug;
    var longer := slugs + [slug];
    forall k | 0 <= k < |longer|
      ensures FirstFree(BaseSlug(names[k]), Elements(longer[..k]), longer[k])
    {
      assert longer[..k] == if k < |slugs| then slugs[..k] else slugs;
    }
    assert forall x :: x in Elements(slugs) ==> x in Elements(longer) by {
      forall x | x in Elements(slugs) ensures x in Elements(longer) {
        var k :| 0 <= k < |slugs| && slugs[k] == x;
        assert longer[k] == x;
      }
    }
    assert longer[|slugs|] == slug;
  }

  /** Every knowledge base gets a distinct, non-empty slug, even when one name spells the suffixed
    * form of another. */
  lemma AssignedAreDistinct(names: seq<string>, slugs: seq<string>, i: nat, j: nat)
    requires Assigned(names, slugs) && i < j < |slugs|
    ensures slugs[i] != "" && slugs[i] != slugs[j]
  {
    assert FirstFree(BaseSlug(names[i]), Elements(slugs[..i]), slugs[i]);
    assert FirstFree(BaseSlug(names[j]), Elements(slugs[..j]), slugs[j]);
    assert slugs[..j][i] == slugs[i];
  }

  /** The base of a name without letters and digits, in its first 100 characters, is "kb"; every other
    * name's is its slug. */
  lemma BaseSlugIs(name: string)
    ensures IsSlug(BaseSlug(name))
    ensures BaseSlug(name) ==
            if exists i :: 0 <= i < |name| && i < 100 && IsSlugChar(LowerChar(name[i])) then Slugify(name, 100) else "kb"
  {
    SlugifyYieldsSlug(name, SLUG_COLUMN);
  }

  /** Every name tried is a slug, and the numbered ones end in a hyphen and the number. */
  lemma CandidateIs(base: string, k: nat)
    requires k >= 1 && IsSlug(base) && base != ""
    ensures IsSlug(Candidate(base, k))
    ensures if k == 1 then Candidate(base, k) == base
            else Candidate(base, k)[..|base|] == base && Candidate(base, k)[|base|] == '-'
                 && DecimalValue(Candidate(base, k)[|base| + 1..]) == k
  {
    if k > 1 {
      var c := Candidate(base, k);
      DecimalIs(k);
      assert c[|base| + 1..] == Decimal(k);
    }
  }

  /** Every assigned slug is one: letters, digits and single inner hyphens. */
  lemma AssignedIsSlug(names: seq<string>, slugs: seq<string>, i: nat)
    requires Assigned(names, slugs) && i < |slugs|
    ensures IsSlug(slugs[i]) && slugs[i] != ""
  {
    var base := BaseSlug(names[i]);
    BaseSlugIs(names[i]);
    var seen := Elements(slugs[..i]);
    assert FirstFree(base, seen, slugs[i]);
    hide *;
    var k :| 1 <= k <= |seen| + 1 && slugs[i] == Candidate(base, k);
    CandidateIs(base, k);
  }

  // ---------------------------------------------------------------- when a slug is too long

  /** The first k - 1 candidates are taken, so there are that many taken slugs. */
  lemma {:induction false} TriedCount(base: string, k: nat, seen: set<string>)
    requires k >= 1 && TriedBefore(base, k, seen)
    ensures k - 1 <= |seen|
    decreases k
  {
    if k > 1 {
      var last := Candidate(base, k - 1);
      forall j | 1 <= j < k - 1 ensures Candidate(base, j) in seen - {last} {
        CandidatesDiffer(base, j, k - 1);
      }
      TriedCount(base, k - 1, seen - {last});
    }
  }

  /** The number of the first free candidate from k on. */
  ghost function NumberFrom(base: string, seen: set<string>, k: nat): (n: nat)
    requires k >= 1 && TriedBefore(base, k, seen)
    ensures n >= 1 && Candidate(base, n) !in seen && TriedBefore(base, n, seen) && n <= |seen| + 1
    decreases |seen| + 1 - k
  {
    TriedCount(base, k, seen);
    if Candidate(base, k) !in seen then k
    else
      TriedCount(base, k + 1, seen);
      NumberFrom(base, seen, k + 1)
  }

  ghost function NumberFor(base: string, seen: set<string>): (n: nat)
    ensures n >= 1 && Candidate(base, n) !in seen && TriedBefore(base, n, seen) && n <= |seen| + 1
  {
    NumberFrom(base, seen, 1)
  }

  lemma FirstFreeIsNumbered(base: string, seen: set<string>, slug: string)
    ensures FirstFree(base, seen, slug) <==> slug == Candidate(base, NumberFor(base, seen))
  {
    var n := NumberFor(base, seen);
    if FirstFree(base, seen, slug) {
      var k :| 1 <= k <= |seen| + 1 && slug == Candidate(base, k) && slug !in seen && TriedBefore(base, k, seen);
      assert k == n;
    }
  }

  /** The slugs of the names, whatever their length. */
  ghost function SlugsOf(names: seq<string>): (slugs: seq<string>)
    ensures |slugs| == |names|
  {
    if names == [] then []
    else
      var before := SlugsOf(names[..|names| - 1]);
      var base := BaseSlug(names[|names| - 1]);
      before + [Candidate(base, NumberFor(base, Elements(before)))]
  }

  /** The number the i-th name ends up with. */
  ghost function NumberAt(names: seq<string>, i: nat): (k: nat)
    requires i < |names|
    ensures k >= 1
  {
    NumberFor(BaseSlug(names[i]), Elements(SlugsOf(names[..i])))
  }

  /** Some name gets a suffix that does not fit the column. */
  ghost predicate Overflows(names: seq<string>) {
    exists i :: 0 <= i < |names| && OverflowsAt(names, i)
  }

  ghost predicate OverflowsAt(names: seq<string>, i: nat)
    requires i < |names|
  {
    NumberAt(names, i) > 1 && |BaseSlug(names[i])| + 1 + |Decimal(NumberAt(names, i))| > SLUG_COLUMN
  }

  lemma {:induction false} SlugsOfAt(names: seq<string>, i: nat)
    requires i < |names|
    ensures SlugsOf(names)[i] == Candidate(BaseSlug(names[i]), NumberAt(names, i))
    ensures SlugsOf(names)[..i] == SlugsOf(names[..i])
    decreases |names|
  {
    hide NumberFor, BaseSlug, Elements;
    var init := names[..|names| - 1];
    if i < |init| {
      SlugsOfAt(init, i);
      assert init[..i] == names[..i];
    }
  }

  lemma {:induction false} AssignedIsSlugsOf(names: seq<string>, slugs: seq<string>)
    requires Assigned(names, slugs)
    ensures slugs == SlugsOf(names[..|slugs|])
    decreases |slugs|
  {
    hide FirstFree, NumberFor, BaseSlug;
    if slugs != [] {
      var n := |slugs| - 1;
      forall i | 0 <= i < n
        ensures FirstFree(BaseSlug(names[i]), Elements(slugs[..n][..i]), slugs[..n][i])
      {
        assert slugs[..n][..i] == slugs[..i];
      }
      AssignedIsSlugsOf(names, slugs[..n]);
      assert names[..n + 1][..n] == names[..n];
      FirstFreeIsNumbered(BaseSlug(names[n]), Elements(slugs[..n]), slugs[n]);
    }
  }

  lemma BaseFits(name: string)
    ensures |BaseSlug(name)| <= SLUG_COLUMN
  {
    SlugifyYieldsSlug(name, SLUG_COLUMN);
  }

  lemma AssignedAt(names: seq<string>, slugs: seq<string>, i: nat)
    requires Assigned(names, slugs) && i < |slugs|
    ensures slugs[i] == Candidate(BaseSlug(names[i]), NumberAt(names, i))
  {
    hide FirstFree, NumberFor, BaseSlug;
    AssignedIsSlugsOf(names, slugs);
    var known := names[..|slugs|];
    SlugsOfAt(known, i);
    assert known[..i] == names[..i];
  }

  lemma LastOverflows(names: seq<string>, slugs: seq<string>)
    requires Assigned(names, slugs) && slugs != [] && |slugs[|slugs| - 1]| > 100
    ensures OverflowsWith(names, slugs[|slugs| - 1])
  {
    hide Assigned;
  }

  lemma LongSlugOverflows(names: seq<string>, slugs: seq<string>, i: nat)
    requires Assigned(names, slugs) && i + 1 == |slugs| && |slugs[i]| > SLUG_COLUMN
    ensures Overflows(names) && OverflowsWith(names, slugs[i])
  {
    LastOverflows(names, slugs);
    AssignedAt(names, slugs, i);
    BaseFits(names[i]);
    hide OverflowsWith, Assigned, BaseSlug, NumberAt;
    assert OverflowsAt(names, i);
  }

  lemma ShortSlugsFit(names: seq<string>, slugs: seq<string>)
    requires Assigned(names, slugs) && |slugs| == |names|
    requires forall i :: 0 <= i < |slugs| ==> |slugs[i]| <= SLUG_COLUMN
    ensures !Overflows(names)
  {
    hide BaseSlug, NumberAt;
    forall i | 0 <= i < |names| ensures !OverflowsAt(names, i) {
      AssignedAt(names, slugs, i);
    }
  }

  /** Two names with one base of 99 characters or more always overflow. */
  lemma RepeatedLongBaseOverflows(names: seq<string>, i: nat, j: nat)
    requires i < j < |names| && BaseSlug(names[i]) == BaseSlug(names[j]) && |BaseSlug(names[j])| >= SLUG_COLUMN - 1
    ensures Overflows(names)
  {
    var base := BaseSlug(names[j]);
    var before := SlugsOf(names[..j]);
    assert names[..j][..i] == names[..i];
    SlugsOfAt(names[..j], i);
    if NumberAt(names, i) == 1 {
      assert before[i] == base;
    } else {
      var first := SlugsOf(names[..i]);
      assert Candidate(base, 1) in Elements(first);
      var k :| 0 <= k < |first| && first[k] == base;
      assert before[..i] == first && before[k] == base;
    }
    assert base in Elements(before);
    assert NumberAt(names, j) != 1;
    assert OverflowsAt(names, j);
  }

  lemma {:induction false} DecimalGrows(m: nat, n: nat)
    requires m <= n
    ensures |Decimal(m)| <= |Decimal(n)|
    decreases n
  {
    if m >= 10 {
      DecimalGrows(m / 10, n / 10);
    }
  }

  lemma {:induction false} ElementsCount(slugs: seq<string>)
    ensures |Elements(slugs)| <= |slugs|
    decreases |slugs|
  {
    if slugs == [] {
      assert Elements(slugs) == {};
    } else {
      var n := |slugs| - 1;
      ElementsCount(slugs[..n]);
      assert Elements(slugs) == Elements(slugs[..n]) + {slugs[n]} by {
        forall x | x in Elements(slugs) ensures x in Elements(slugs[..n]) + {slugs[n]} {
          var k :| 0 <= k < |slugs| && slugs[k] == x;
          assert k < n ==> slugs[..n][k] == x;
        }
        forall x | x in Elements(slugs[..n]) ensures x in Elements(slugs) {
          var k :| 0 <= k < n && slugs[..n][k] == x;
          assert slugs[k] == x;
        }
      }
    }
  }

  /** Bases that leave room for the number of names never overflow. */
  lemma ShortBasesFit(names: seq<string>)
    requires forall i :: 0 <= i < |names| ==> |BaseSlug(names[i])| + 1 + |Decimal(|names|)| <= SLUG_COLUMN
    ensures !Overflows(names)
  {
    hide BaseSlug;
    forall i | 0 <= i < |names| ensures !OverflowsAt(names, i) {
      ElementsCount(SlugsOf(names[..i]));
      DecimalGrows(NumberAt(names, i), |names|);
    }
  }

  function Letters(n: nat): (s: string)
    ensures |s| == n && forall i :: 0 <= i < n ==> s[i] == 'a'
  {
    seq(n, i => 'a')
  }

  function Same(name: string, n: nat): (names: seq<string>)
    ensures |names| == n && forall i :: 0 <= i < n ==> names[i] == name
  {
    seq(n, i => name)
  }

  /** Equal names are numbered 1, 2, 3, ... */
  lemma {:induction false} SameNamesAreNumbered(name: string, n: nat)
    ensures forall i :: 0 <= i < n ==> SlugsOf(Same(name, n))[i] == Candidate(BaseSlug(name), i + 1)
    decreases n
  {
    hide BaseSlug, NumberFor;
    if n > 0 {
      var base, before := BaseSlug(name), SlugsOf(Same(name, n - 1));
      assert Same(name, n)[..n - 1] == Same(name, n - 1);
      SameNamesAreNumbered(name, n - 1);
      SameNumber(base, before);
    }
  }

  lemma SameNumber(base: string, before: seq<string>)
    requires forall i :: 0 <= i < |before| ==> before[i] == Candidate(base, i + 1)
    ensures NumberFor(base, Elements(before)) == |before| + 1
  {
    var seen := Elements(before);
    var n := NumberFor(base, seen);
    assert forall k {:trigger Candidate(base, k)} :: 1 <= k <= |before| ==> before[k - 1] == Candidate(base, k);
    assert n > |before|;
    ElementsCount(before);
  }

  /** How long bases may be: for n names whose bases have at most `limit` characters, overflow is
    * excluded if and only if the limit leaves room for a hyphen and the number n. */
  lemma LengthLimitIff(n: nat, limit: nat)
    requires n >= 2 && 1 <= limit <= SLUG_COLUMN
    ensures (forall names: seq<string> ::
               |names| == n && (forall i :: 0 <= i < n ==> |BaseSlug(names[i])| <= limit) ==> !Overflows(names))
            <==> limit + 1 + |Decimal(n)| <= SLUG_COLUMN
  {
    if limit + 1 + |Decimal(n)| <= SLUG_COLUMN {
      forall names: seq<string> | |names| == n && (forall i :: 0 <= i < n ==> |BaseSlug(names[i])| <= limit)
        ensures !Overflows(names)
      {
        ShortBasesFit(names);
      }
    } else {
      var name := Letters(limit);
      SlugIsItsOwn(name, SLUG_COLUMN);
      var names := Same(name, n);
      WorstNamesOverflow(name, n);
      assert |names| == n && forall i :: 0 <= i < n ==> |BaseSlug(names[i])| <= limit;
    }
  }

  lemma WorstNamesOverflow(name: string, n: nat)
    requires n >= 2 && |BaseSlug(name)| + 1 + |Decimal(n)| > SLUG_COLUMN
    ensures Overflows(Same(name, n))
  {
    hide BaseSlug, NumberFor;
    var names, base := Same(name, n), BaseSlug(name);
    SameNamesAreNumbered(name, n);
    SlugsOfAt(names, n - 1);
    if NumberAt(names, n - 1) != n {
      CandidatesDiffer(base, NumberAt(names, n - 1), n);
    }
    assert OverflowsAt(names, n - 1);
  }
}
