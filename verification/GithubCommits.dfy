/**
  * The GitHub client: paging, the commit fetch over all branches with its widened date window, and
  * the grouping of review comments.
  */
module GithubCommits {
  import opened Wrappers

  // ---------------------------------------------------------------- paging

  /** Page n (from 1) of a list in pages of p items: what the server answers to per_page and page. */
  function ServerPage<T>(items: seq<T>, p: nat, n: nat): seq<T>
    requires p > 0 && n > 0
  {
    var from := (n - 1) * p;
    if from >= |items| then [] else if from + p <= |items| then items[from..from + p] else items[from..]
  }

  /** _paginate_search: the whole list, in order, in floor(n/p) + 1 requests. */
  method PaginateSearch<T>(server: seq<T>, perPage: nat) returns (allItems: seq<T>, requests: nat)
    requires perPage > 0
    ensures allItems == server
    ensures requests == |server| / perPage + 1
  {
    allItems := [];
    var page := 1;
    while true
      invariant page >= 1 && (page - 1) * perPage <= |server|
      invariant allItems == server[..(page - 1) * perPage]
      decreases |server| - (page - 1) * perPage
    {
      var items := ServerPage(server, perPage, page);
      assert (page - 1) * perPage + perPage == page * perPage;
      allItems := allItems + items;
      if |items| < perPage {
        assert allItems == server;
        Quotient(|server|, perPage, page - 1);
        return allItems, page;
      }
      page := page + 1;
    }
  }

  lemma Multiples(k: int, p: nat)
    requires p > 0
    ensures k >= 1 ==> k * p >= p
    ensures k <= -1 ==> k * p <= -(p as int)
  {
    if k >= 1 { assert (k - 1) * p >= 0; }
    if k <= -1 { assert (-k - 1) * p >= 0; }
  }

  lemma Quotient(n: nat, p: nat, q: nat)
    requires p > 0 && q * p <= n < q * p + p
    ensures n / p == q
  {
    var d := n / p;
    assert d * p <= n < d * p + p;
    assert (d - q) * p == d * p - q * p;
    Multiples(d - q, p);
  }

  // ---------------------------------------------------------------- calendar dates

  datatype Date = Date(year: nat, month: nat, day: nat)

  predicate Leap(y: nat) {
    y % 4 == 0 && (y % 100 != 0 || y % 400 == 0)
  }

  function DaysIn(y: nat, m: nat): nat {
    if m == 2 then (if Leap(y) then 29 else 28)
    else if m in {4, 6, 9, 11} then 30 else 31
  }

  predicate Valid(d: Date) {
    1 <= d.year <= 9999 && 1 <= d.month <= 12 && 1 <= d.day <= DaysIn(d.year, d.month)
  }

  /** datetime's table of days before a month, with the leap day. */
  function DaysBeforeMonth(y: nat, m: nat): nat
    requires 1 <= m <= 12
  {
    (match m
     case 1 => 0 case 2 => 31 case 3 => 59 case 4 => 90 case 5 => 120 case 6 => 151
     case 7 => 181 case 8 => 212 case 9 => 243 case 10 => 273 case 11 => 304 case _ => 334)
    + if m > 2 && Leap(y) then 1 else 0
  }

  function DaysBeforeYear(y: nat): nat
    requires y >= 1
  {
    (y - 1) * 365 + (y - 1) / 4 - (y - 1) / 100 + (y - 1) / 400
  }

  /** The proleptic Gregorian ordinal of datetime.date. */
  function Ordinal(d: Date): nat
    requires Valid(d)
  {
    DaysBeforeYear(d.year) + DaysBeforeMonth(d.year, d.month) + d.day
  }

  /** d + timedelta(days=1); None for the overflow at year 9999. */
  function NextDay(d: Date): Option<Date>
    requires Valid(d)
  {
    if d.day < DaysIn(d.year, d.month) then Some(d.(day := d.day + 1))
    else if d.month < 12 then Some(Date(d.year, d.month + 1, 1))
    else if d.year < 9999 then Some(Date(d.year + 1, 1, 1))
    else None
  }

  function PreviousDay(d: Date): Option<Date>
    requires Valid(d)
  {
    if d.day > 1 then Some(d.(day := d.day - 1))
    else if d.month > 1 then Some(Date(d.year, d.month - 1, DaysIn(d.year, d.month - 1)))
    else if d.year > 1 then Some(Date(d.year - 1, 12, 31))
    else None
  }

  lemma YearLength(y: nat)
    requires y >= 1
    ensures DaysBeforeMonth(y, 12) + 31 == if Leap(y) then 366 else 365
  {
  }

  lemma YearAdvances(y: nat)
    requires y >= 1
    ensures DaysBeforeYear(y + 1) == DaysBeforeYear(y) + if Leap(y) then 366 else 365
  {
    DivStep(y, 4);
    DivStep(y, 100);
    DivStep(y, 400);
    DivisibleDown(y, 100, 4, 25);
    DivisibleDown(y, 400, 100, 4);
  }

  lemma DivisibleDown(y: nat, m: nat, k: nat, c: nat)
    requires m == c * k && k > 0 && m > 0
    ensures y % m == 0 ==> y % k == 0
  {
    if y % m == 0 {
      var q := y / m;
      assert y == q * m;
      assert y == (q * c) * k;
      MultipleMod(q * c, k);
    }
  }

  lemma MultipleMod(q: nat, k: nat)
    requires k > 0
    ensures (q * k) % k == 0
  {
    var r := (q * k) % k;
    var d := (q * k) / k;
    assert q * k == d * k + r && 0 <= r < k;
    assert (q - d) * k == r;
    Multiples(q - d, k);
  }

  lemma DivStep(y: nat, k: nat)
    requires y >= 1 && k in {4, 100, 400}
    ensures y / k == (y - 1) / k + if y % k == 0 then 1 else 0
  {
  }

  lemma NextMonth(y: nat, m: nat)
    requires 1 <= m < 12
    ensures DaysBeforeMonth(y, m + 1) == DaysBeforeMonth(y, m) + DaysIn(y, m)
  {
  }

  lemma NextDayBack(d: Date)
    requires Valid(d) && NextDay(d).Some?
    ensures Valid(NextDay(d).value) && PreviousDay(NextDay(d).value) == Some(d)
  {
  }

  /** One day forward is one ordinal forward, across month ends, year ends and leap days. */
  lemma NextDayOrdinal(d: Date)
    requires Valid(d) && NextDay(d).Some?
    ensures Valid(NextDay(d).value) && Ordinal(NextDay(d).value) == Ordinal(d) + 1
    ensures PreviousDay(NextDay(d).value) == Some(d)
  {
    NextDayBack(d);
    hide PreviousDay;
    if d.day == DaysIn(d.year, d.month) {
      if d.month < 12 {
        NextMonth(d.year, d.month);
      } else {
        YearLength(d.year);
        YearAdvances(d.year);
      }
      hide DaysBeforeMonth, DaysBeforeYear;
      assert DaysBeforeMonth(d.year + 1, 1) == 0 by { FirstMonth(d.year + 1); }
    }
  }

  lemma FirstMonth(y: nat)
    ensures DaysBeforeMonth(y, 1) == 0
  {
  }

  lemma PreviousDayOrdinal(d: Date)
    requires Valid(d) && PreviousDay(d).Some?
    ensures Valid(PreviousDay(d).value) && Ordinal(PreviousDay(d).value) + 1 == Ordinal(d)
  {
    NextDayOrdinal(PreviousDay(d).value);
  }

  predicate DateLt(a: Date, b: Date) {
    a.year < b.year || (a.year == b.year && (a.month < b.month || (a.month == b.month && a.day < b.day)))
  }

  lemma {:induction false} MonthsGrow(y: nat, m: nat, n: nat)
    requires 1 <= m < n <= 12
    ensures DaysBeforeMonth(y, m) + DaysIn(y, m) <= DaysBeforeMonth(y, n)
    decreases n
  {
    if m < n - 1 { MonthsGrow(y, m, n - 1); }
  }

  lemma {:induction false} YearsGrow(y: nat, z: nat)
    requires 1 <= y < z
    ensures DaysBeforeYear(y + 1) <= DaysBeforeYear(z)
    decreases z
  {
    if y + 1 < z {
      YearsGrow(y, z - 1);
      YearAdvances(z - 1);
    }
  }

  lemma OrdinalGrows(a: Date, b: Date)
    requires Valid(a) && Valid(b) && DateLt(a, b)
    ensures Ordinal(a) < Ordinal(b)
  {
    if a.year < b.year {
      YearsGrow(a.year, b.year);
      YearAdvances(a.year);
      YearLength(a.year);
      if a.month < 12 { MonthsGrow(a.year, a.month, 12); }
    } else if a.month < b.month {
      MonthsGrow(a.year, a.month, b.month);
    }
  }

  lemma OrdinalOrder(a: Date, b: Date)
    requires Valid(a) && Valid(b)
    ensures Ordinal(a) < Ordinal(b) <==> DateLt(a, b)
  {
    if DateLt(a, b) {
      OrdinalGrows(a, b);
    } else if DateLt(b, a) {
      OrdinalGrows(b, a);
    }
  }

  // ---------------------------------------------------------------- ISO strings and their order

  /** n in w decimal digits, zero-padded. */
  function Padded(n: nat, w: nat): (s: string)
    ensures |s| == w
  {
    if w == 0 then "" else Padded(n / 10, w - 1) + [('0' as int + n % 10) as char]
  }

  function Power10(w: nat): nat {
    if w == 0 then 1 else 10 * Power10(w - 1)
  }

  function Iso(d: Date): string {
    Padded(d.year, 4) + "-" + Padded(d.month, 2) + "-" + Padded(d.day, 2)
  }

  lemma {:induction false} PaddedIs(n: nat, w: nat)
    requires n < Power10(w)
    ensures DecimalValue(Padded(n, w)) == n
    decreases w
  {
    if w > 0 {
      PaddedIs(n / 10, w - 1);
      var s := Padded(n, w);
      assert s[..|s| - 1] == Padded(n / 10, w - 1);
    }
  }

  /** A date reads YYYY-MM-DD. */
  lemma IsoIs(d: Date)
    requires Valid(d)
    ensures var s := Iso(d);
      && |s| == 10 && s[4] == '-' && s[7] == '-'
      && DecimalValue(s[..4]) == d.year && DecimalValue(s[5..7]) == d.month && DecimalValue(s[8..]) == d.day
  {
    assert Power10(2) == 100 && Power10(4) == 100 * Power10(2);
    PaddedIs(d.year, 4);
    PaddedIs(d.month, 2);
    PaddedIs(d.day, 2);
    assert Iso(d)[..4] == Padded(d.year, 4) && Iso(d)[5..7] == Padded(d.month, 2) && Iso(d)[8..] == Padded(d.day, 2);
  }

  /** String comparison by code points. */
  predicate StringLt(s: string, t: string) {
    t != "" && (s == "" || s[0] < t[0] || (s[0] == t[0] && StringLt(s[1..], t[1..])))
  }

  predicate StringLe(s: string, t: string) {
    s == t || StringLt(s, t)
  }

  lemma {:induction false} CompareParts(a: string, b: string, x: string, y: string)
    requires |a| == |b|
    ensures StringLt(a + x, b + y) <==> StringLt(a, b) || (a == b && StringLt(x, y))
    decreases |a|
  {
    if a == "" {
      assert a + x == x && b + y == y;
    } else {
      assert (a + x)[1..] == a[1..] + x && (b + y)[1..] == b[1..] + y;
      CompareParts(a[1..], b[1..], x, y);
      assert a == b <==> a[0] == b[0] && a[1..] == b[1..] by {
        assert a == [a[0]] + a[1..] && b == [b[0]] + b[1..];
      }
    }
  }

  lemma {:induction false} PaddedOrder(m: nat, n: nat, w: nat)
    requires m < Power10(w) && n < Power10(w)
    ensures StringLt(Padded(m, w), Padded(n, w)) <==> m < n
    ensures Padded(m, w) == Padded(n, w) <==> m == n
    decreases w
  {
    if w > 0 {
      PaddedOrder(m / 10, n / 10, w - 1);
      var x, y := [('0' as int + m % 10) as char], [('0' as int + n % 10) as char];
      CompareParts(Padded(m / 10, w - 1), Padded(n / 10, w - 1), x, y);
      assert StringLt(x, y) <==> m % 10 < n % 10 by {
        assert x[1..] == "" && y[1..] == "";
      }
      assert Padded(m, w)[..w - 1] == Padded(m / 10, w - 1) && Padded(n, w)[..w - 1] == Padded(n / 10, w - 1);
      assert Padded(m, w)[w - 1] == x[0] && Padded(n, w)[w - 1] == y[0];
    }
  }

  lemma DayMonthOrder(a: Date, b: Date)
    requires Valid(a) && Valid(b)
    ensures var x, y := Padded(a.month, 2) + "-" + Padded(a.day, 2), Padded(b.month, 2) + "-" + Padded(b.day, 2);
      && (StringLt(x, y) <==> a.month < b.month || (a.month == b.month && a.day < b.day))
      && (x == y <==> a.month == b.month && a.day == b.day)
  {
    assert Power10(2) == 100;
    PaddedOrder(a.month, b.month, 2);
    PaddedOrder(a.day, b.day, 2);
    var x, y := Padded(a.month, 2) + "-" + Padded(a.day, 2), Padded(b.month, 2) + "-" + Padded(b.day, 2);
    CompareParts(Padded(a.month, 2) + "-", Padded(b.month, 2) + "-", Padded(a.day, 2), Padded(b.day, 2));
    CompareParts(Padded(a.month, 2), Padded(b.month, 2), "-", "-");
    assert !StringLt("-", "-") by { assert "-"[1..] == ""; }
    assert x[..2] == Padded(a.month, 2) && y[..2] == Padded(b.month, 2);
    assert x[3..] == Padded(a.day, 2) && y[3..] == Padded(b.day, 2);
  }

  lemma IsoOrder(a: Date, b: Date)
    requires Valid(a) && Valid(b)
    ensures StringLt(Iso(a), Iso(b)) <==> DateLt(a, b)
    ensures Iso(a) == Iso(b) <==> a == b
  {
    assert Power10(4) == 10000 by { assert Power10(2) == 100; }
    PaddedOrder(a.year, b.year, 4);
    DayMonthOrder(a, b);
    var x, y := Padded(a.month, 2) + "-" + Padded(a.day, 2), Padded(b.month, 2) + "-" + Padded(b.day, 2);
    assert Iso(a) == Padded(a.year, 4) + ("-" + x) && Iso(b) == Padded(b.year, 4) + ("-" + y);
    CompareParts(Padded(a.year, 4), Padded(b.year, 4), "-" + x, "-" + y);
    CompareParts("-", "-", x, y);
    assert !StringLt("-", "-") by { assert "-"[1..] == ""; }
    assert Iso(a)[..4] == Padded(a.year, 4) && Iso(b)[..4] == Padded(b.year, 4);
    assert Iso(a)[5..] == x && Iso(b)[5..] == y;
    hide Padded, Iso, StringLt, Valid;
  }

  lemma DatesCompare(a: Date, b: Date)
    ensures a == b || DateLt(a, b) || DateLt(b, a)
    ensures !(DateLt(a, b) && DateLt(b, a)) && !DateLt(a, a)
  {
  }

  /** Comparing ISO date strings is comparing calendar dates. */
  lemma IsoOrderIsCalendarOrder(a: Date, b: Date)
    requires Valid(a) && Valid(b)
    ensures StringLe(Iso(a), Iso(b)) <==> Ordinal(a) <= Ordinal(b)
  {
    hide Iso, StringLt, Ordinal, DateLt, Valid;
    IsoOrder(a, b);
    OrdinalOrder(a, b);
    OrdinalOrder(b, a);
    DatesCompare(a, b);
  }

  // ---------------------------------------------------------------- commits and the window

  const DAY := 86400

  /** A local date and second of day, and the offset from UTC, strictly under a day. */
  datatype Stamp = Stamp(date: Date, second: nat, offset: int)

  predicate ValidStamp(s: Stamp) {
    Valid(s.date) && s.second < DAY && -DAY < s.offset < DAY
  }

  /** Seconds since day 0, UTC. */
  function Instant(s: Stamp): int
    requires ValidStamp(s)
  {
    Ordinal(s.date) * DAY + s.second - s.offset
  }

  /** The author date is None when the timestamp is missing or does not parse. */
  datatype Commit = Commit(sha: string, authored: Option<Stamp>)

  predicate ValidCommit(c: Commit) {
    c.authored.Some? ==> ValidStamp(c.authored.value)
  }

  /** _date_in_range, comparing strings as the code does. */
  predicate DateInRange(authored: Option<Stamp>, date: string, dateEnd: string) {
    authored.Some? && StringLe(date, Iso(authored.value.date)) && StringLe(Iso(authored.value.date), dateEnd)
  }

  /** A commit is in range exactly if the author's local date is no earlier than the first day and no
    * later than the last: both days count. */
  lemma DateInRangeIff(authored: Option<Stamp>, first: Date, last: Date)
    requires Valid(first) && Valid(last) && (authored.Some? ==> ValidStamp(authored.value))
    ensures DateInRange(authored, Iso(first), Iso(last)) <==>
            authored.Some? && Ordinal(first) <= Ordinal(authored.value.date) <= Ordinal(last)
  {
    if authored.Some? {
      IsoOrderIsCalendarOrder(first, authored.value.date);
      IsoOrderIsCalendarOrder(authored.value.date, last);
    }
  }

  /** The query window: from 00:00:00Z a day before to 23:59:59Z a day after. */
  function Since(date: Date): int
    requires Valid(date)
  {
    Ordinal(date) * DAY
  }

  function Until(date: Date): int
    requires Valid(date)
  {
    Ordinal(date) * DAY + DAY - 1
  }

  /** The widened window holds every commit whose local date is in range, whatever its offset; and
    * it is tight: such a commit can lie one second inside either end. */
  lemma WindowCovers(first: Date, last: Date, c: Stamp)
    requires Valid(first) && Valid(last) && PreviousDay(first).Some? && NextDay(last).Some?
    requires ValidStamp(c) && DateInRange(Some(c), Iso(first), Iso(last))
    ensures Since(PreviousDay(first).value) < Instant(c) < Until(NextDay(last).value)
    ensures Instant(Stamp(first, 0, DAY - 1)) == Since(PreviousDay(first).value) + 1
    ensures Instant(Stamp(last, DAY - 1, 1 - DAY)) == Until(NextDay(last).value) - 1
  {
    PreviousDayOrdinal(first);
    NextDayOrdinal(last);
    IsoOrderIsCalendarOrder(first, c.date);
    IsoOrderIsCalendarOrder(c.date, last);
  }

  /** What the server lists for a branch: the author's commits with an instant in the window, and
    * perhaps commits without a usable date. */
  function Listed(branch: seq<Commit>, since: int, until: int): seq<Commit>
    requires forall c :: c in branch ==> ValidCommit(c)
  {
    if branch == [] then []
    else
      var c := branch[|branch| - 1];
      assert c in branch && ValidCommit(c);
      var before := Listed(branch[..|branch| - 1], since, until);
      if c.authored.Some? && !(since <= Instant(c.authored.value) <= until) then before else before + [c]
  }

  /** The window runs from midnight to one second before the next midnight, both in UTC. */
  lemma WindowEnds(first: Date, last: Date)
    requires Valid(first) && Valid(last)
    ensures Since(first) == Instant(Stamp(first, 0, 0))
    ensures Until(last) == Instant(Stamp(last, 23 * 3600 + 59 * 60 + 59, 0))
    ensures NextDay(last).Some? ==> Valid(NextDay(last).value) && Until(last) + 1 == Since(NextDay(last).value)
  {
    if NextDay(last).Some? { NextDayOrdinal(last); }
  }

  /** The listing leaves out exactly the dated commits outside the window, and keeps the order. */
  lemma {:induction false} ListedIs(xs: seq<Commit>, ys: seq<Commit>, since: int, until: int, c: Commit)
    requires forall d :: d in xs + ys ==> ValidCommit(d)
    ensures forall d :: d in xs || d in ys ==> ValidCommit(d)
    ensures Listed(xs + ys, since, until) == Listed(xs, since, until) + Listed(ys, since, until)
    ensures c in Listed(xs, since, until) <==>
            c in xs && (c.authored.Some? ==> since <= Instant(c.authored.value) <= until)
    decreases |xs| + |ys|
  {
    forall d | d in xs || d in ys ensures ValidCommit(d) { assert d in xs + ys; }
    hide ValidCommit, Instant;
    if ys != [] {
      var n := |ys| - 1;
      assert (xs + ys)[..|xs + ys| - 1] == xs + ys[..n];
      forall d | d in xs + ys[..n] ensures ValidCommit(d) { assert d in xs + ys; }
      ListedIs(xs, ys[..n], since, until, c);
    } else {
      assert xs + ys == xs;
      if xs != [] {
        var n := |xs| - 1;
        assert xs[..n] + [] == xs[..n];
        forall d | d in xs[..n] + [] ensures ValidCommit(d) { assert d in xs; }
        ListedIs(xs[..n], [], since, until, c);
        assert c in xs <==> c in xs[..n] || c == xs[n];
      }
    }
  }

  // ---------------------------------------------------------------- fetching

  function Shas(cs: seq<Commit>): set<string> {
    set c | c in cs :: c.sha
  }

  /** In-range commits with a sha, each sha at its first occurrence. */
  function FirstSeen(cs: seq<Commit>, date: string, dateEnd: string): seq<Commit> {
    if cs == [] then []
    else
      var c, before := cs[|cs| - 1], FirstSeen(cs[..|cs| - 1], date, dateEnd);
      if c.sha != "" && c.sha !in Shas(before) && DateInRange(c.authored, date, dateEnd) then before + [c] else before
  }

  function Concat(branches: seq<seq<Commit>>): seq<Commit> {
    if branches == [] then [] else Concat(branches[..|branches| - 1]) + branches[|branches| - 1]
  }

  datatype Error = DateOverflow

  /** fetch_commits over the branches' full histories; `branches` is what the server holds. */
  method FetchCommits(branches: seq<seq<Commit>>, first: Date, last: Date) returns (r: Result<seq<Commit>, Error>)
    requires Valid(first) && Valid(last)
    requires forall b, c :: b in branches && c in b ==> ValidCommit(c)
    ensures r == if PreviousDay(first).None? || NextDay(last).None? then Err(DateOverflow)
                 else Ok(FirstSeen(Concat(branches), Iso(first), Iso(last)))
  {
    if PreviousDay(first).None? || NextDay(last).None? { return Err(DateOverflow); }
    PreviousDayOrdinal(first);
    NextDayOrdinal(last);
    var since, until := Since(PreviousDay(first).value), Until(NextDay(last).value);
    var date, dateEnd := Iso(first), Iso(last);
    var seenShas: set<string> := {};
    var allCommits: seq<Commit> := [];
    hide FirstSeen, Listed, Iso, Valid, PreviousDay, NextDay, ValidCommit, Since, Until;
    FirstSeenOfNothing(date, dateEnd);
    var i := 0;
    while i < |branches|
      invariant 0 <= i <= |branches|
      invariant allCommits == FirstSeen(Concat(branches[..i]), date, dateEnd)
      invariant seenShas == Shas(allCommits)
    {
      ghost var before := Concat(branches[..i]);
      assert branches[i] in branches;
      var items, requests := PaginateSearch(Listed(branches[i], since, until), 100);
      allCommits, seenShas := CollectInRange(before, items, allCommits, seenShas, date, dateEnd);
      WindowLosesNothing(before, branches[i], first, last, since, until);
      assert branches[..i + 1][..i] == branches[..i];
      i := i + 1;
    }
    assert branches[..i] == branches;
    return Ok(allCommits);
  }

  lemma FirstSeenOfNothing(date: string, dateEnd: string)
    ensures FirstSeen([], date, dateEnd) == [] && Shas([]) == {}
  {
  }

  /** The inner loop over one branch's items. */
  method CollectInRange(ghost before: seq<Commit>, items: seq<Commit>, commits0: seq<Commit>, seen0: set<string>,
                        date: string, dateEnd: string)
    returns (allCommits: seq<Commit>, seenShas: set<string>)
    requires commits0 == FirstSeen(before, date, dateEnd) && seen0 == Shas(commits0)
    ensures allCommits == FirstSeen(before + items, date, dateEnd) && seenShas == Shas(allCommits)
  {
    hide DateInRange;
    allCommits, seenShas := commits0, seen0;
    var j := 0;
    assert before + items[..0] == before;
    while j < |items|
      invariant 0 <= j <= |items|
      invariant allCommits == FirstSeen(before + items[..j], date, dateEnd)
      invariant seenShas == Shas(allCommits)
    {
      var item := items[j];
      assert (before + items[..j + 1])[..|before| + j] == before + items[..j];
      if item.sha != "" && item.sha !in seenShas && DateInRange(item.authored, date, dateEnd) {
        ShasAppend(allCommits, item);
        seenShas := seenShas + {item.sha};
        allCommits := allCommits + [item];
      }
      j := j + 1;
    }
    assert before + items[..j] == before + items;
  }

  lemma ShasAppend(cs: seq<Commit>, c: Commit)
    ensures Shas(cs + [c]) == Shas(cs) + {c.sha}
  {
    assert c in cs + [c];
    forall d | d in cs ensures d in cs + [c] {
    }
  }

  /** Listing a branch through the window changes nothing in the result. */
  lemma {:induction false} WindowLosesNothing(before: seq<Commit>, branch: seq<Commit>, first: Date, last: Date,
                                              since: int, until: int)
    requires Valid(first) && Valid(last) && PreviousDay(first).Some? && NextDay(last).Some?
    requires Valid(PreviousDay(first).value) && since == Since(PreviousDay(first).value)
    requires Valid(NextDay(last).value) && until == Until(NextDay(last).value)
    requires forall c :: c in branch ==> ValidCommit(c)
    ensures FirstSeen(before + Listed(branch, since, until), Iso(first), Iso(last)) ==
            FirstSeen(before + branch, Iso(first), Iso(last))
    decreases |branch|
  {
    hide Iso, Valid, PreviousDay, NextDay, Since, Until, Instant, FirstSeen;
    if branch != [] {
      var init, c := branch[..|branch| - 1], branch[|branch| - 1];
      assert c in branch;
      assert forall d :: d in init ==> d in branch;
      WindowLosesNothing(before, init, first, last, since, until);
      if DateInRange(c.authored, Iso(first), Iso(last)) {
        WindowCovers(first, last, c.authored.value);
      }
      var kept := Listed(init, since, until);
      assert before + branch == (before + init) + [c] && before + (kept + [c]) == (before + kept) + [c];
      OneMoreSeen(before + init, c, Iso(first), Iso(last));
      OneMoreSeen(before + kept, c, Iso(first), Iso(last));
    }
  }

  lemma OneMoreSeen(cs: seq<Commit>, c: Commit, date: string, dateEnd: string)
    ensures var seen := FirstSeen(cs, date, dateEnd);
      FirstSeen(cs + [c], date, dateEnd) ==
      if c.sha != "" && c.sha !in Shas(seen) && DateInRange(c.authored, date, dateEnd) then seen + [c] else seen
  {
    assert (cs + [c])[..|cs|] == cs;
  }

  /** Each in-range commit of any branch is in the result exactly once. */
  lemma {:induction false} FirstSeenIsExact(cs: seq<Commit>, date: string, dateEnd: string, sha: string)
    ensures var r := FirstSeen(cs, date, dateEnd);
      && (sha in Shas(r) <==> sha != "" && exists c :: c in cs && c.sha == sha && DateInRange(c.authored, date, dateEnd))
      && (forall i, j :: 0 <= i < j < |r| ==> r[i].sha != r[j].sha)
      && (forall c :: c in r ==> c in cs && DateInRange(c.authored, date, dateEnd))
    decreases |cs|
  {
    if cs != [] {
      var init, last := cs[..|cs| - 1], cs[|cs| - 1];
      FirstSeenIsExact(init, date, dateEnd, sha);
      FirstSeenIsExact(init, date, dateEnd, last.sha);
      var before := FirstSeen(init, date, dateEnd);
      assert forall c :: c in cs <==> c in init || c == last;
      forall i | 0 <= i < |before| ensures before[i].sha in Shas(before) {
      }
    }
  }

  /** First-seen order: the result for a prefix of the listing is a prefix of the result. */
  lemma {:induction false} FirstSeenGrows(cs: seq<Commit>, n: nat, date: string, dateEnd: string)
    requires n <= |cs|
    ensures FirstSeen(cs[..n], date, dateEnd) <= FirstSeen(cs, date, dateEnd)
    decreases |cs|
  {
    if n < |cs| {
      FirstSeenGrows(cs[..|cs| - 1], n, date, dateEnd);
      assert cs[..|cs| - 1][..n] == cs[..n];
    } else {
      assert cs[..n] == cs;
    }
  }

  // ---------------------------------------------------------------- review comments

  datatype Comment = Comment(review: Option<int>, body: string)

  function OfReview(cs: seq<Comment>, review: int): seq<string> {
    if cs == [] then []
    else
      var before, c := OfReview(cs[..|cs| - 1], review), cs[|cs| - 1];
      if c.review == Some(review) then before + [c.body] else before
  }

  /** A review's comments are decided one by one, in order. */
  lemma {:induction false} OfReviewLaw(xs: seq<Comment>, ys: seq<Comment>, review: int)
    ensures OfReview(xs + ys, review) == OfReview(xs, review) + OfReview(ys, review)
    ensures forall c :: OfReview([c], review) == if c.review == Some(review) then [c.body] else []
    decreases |ys|
  {
    assert forall c: Comment :: [c][..0] == [];
    if ys == [] {
      assert xs + ys == xs;
    } else {
      var n := |ys| - 1;
      assert (xs + ys)[..|xs + ys| - 1] == xs + ys[..n];
      OfReviewLaw(xs, ys[..n], review);
    }
  }

  /** Each review gets its own comments, all of them, in order; comments without a review go nowhere. */
  method GroupComments(cs: seq<Comment>) returns (byReview: map<int, seq<string>>)
    ensures forall review ::
              (if review in byReview then byReview[review] else []) == OfReview(cs, review)
    ensures forall review :: review in byReview ==> byReview[review] != []
  {
    byReview := map[];
    var i := 0;
    while i < |cs|
      invariant 0 <= i <= |cs|
      invariant forall review ::
                  (if review in byReview then byReview[review] else []) == OfReview(cs[..i], review)
      invariant forall review :: review in byReview ==> byReview[review] != []
    {
      assert cs[..i + 1][..i] == cs[..i];
      if cs[i].review.Some? {
        var rid := cs[i].review.value;
        if rid !in byReview { byReview := byReview[rid := []]; }
        byReview := byReview[rid := byReview[rid] + [cs[i].body]];
      }
      i := i + 1;
    }
    assert cs[..i] == cs;
  }
}
