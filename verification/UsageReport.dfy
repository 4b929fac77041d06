/**
  Usage reports (usagereport.rs): seconds used, jobs and waits by local user name, for each day of
  a project and each project of a portal. Usage saturates at 64 bits, and the maps it is kept in
  are gone through in no particular order.
 */
module UsageReports {
  import opened Dates
  import opened Decimal
  import opened Identifiers
  import opened Wrappers

  type u64 = n: nat | n <= U64_MAX

  function SaturatingAdd(a: u64, b: u64): u64 {
    if a + b <= U64_MAX then a + b else U64_MAX
  }

  lemma SaturatingLaws(a: u64, b: u64, c: u64)
    ensures SaturatingAdd(a, b) == SaturatingAdd(b, a)
    ensures SaturatingAdd(a, SaturatingAdd(b, c)) == SaturatingAdd(SaturatingAdd(a, b), c)
    ensures SaturatingAdd(a, SaturatingAdd(b, c)) == SaturatingAdd(b, SaturatingAdd(a, c))
    ensures SaturatingAdd(0, a) == SaturatingAdd(a, 0) == a
  {}

  // ---- Sums over maps ----

  /** The usage in a map, added up in some order. */
  ghost function Total<K(!new)>(m: map<K, u64>): u64
    decreases |m|
  {
    if m == map[] then 0
    else
      var k :| k in m;
      SaturatingAdd(m[k], Total(m - {k}))
  }

  /** The order does not matter. */
  lemma {:induction false} TotalLess<K(!new)>(m: map<K, u64>, k: K)
    requires k in m
    ensures Total(m) == SaturatingAdd(m[k], Total(m - {k}))
    decreases |m|
  {
    var j :| j in m && Total(m) == SaturatingAdd(m[j], Total(m - {j}));
    hide SaturatingAdd, Total;
    if j == k {
    } else {
      TotalLess(m - {j}, k);
      TotalLess(m - {k}, j);
      assert m - {j} - {k} == m - {k} - {j};
      SaturatingLaws(m[j], m[k], Total(m - {j} - {k}));
    }
  }

  /** A sum without a limit. */
  ghost function ExactTotal<K(!new)>(m: map<K, nat>): nat
    decreases |m|
  {
    if m == map[] then 0
    else
      var k :| k in m;
      m[k] + ExactTotal(m - {k})
  }

  function Capped(n: nat): u64 {
    if n <= U64_MAX then n else U64_MAX
  }

  /** Saturating at every addition comes to the same as saturating once at the end. */
  lemma {:induction false} TotalIsCapped<K(!new)>(m: map<K, u64>, exact: map<K, nat>)
    requires m.Keys == exact.Keys && forall k | k in m :: m[k] == Capped(exact[k])
    ensures Total(m) == Capped(ExactTotal(exact))
    decreases |exact|
  {
    if exact == map[] {
      assert m == map[];
    } else {
      var k :| k in exact && ExactTotal(exact) == exact[k] + ExactTotal(exact - {k});
      TotalLess(m, k);
      TotalIsCapped(m - {k}, exact - {k});
    }
  }

  /** Two maps added key by key. */
  function Plus<K>(m: map<K, u64>, n: map<K, u64>): map<K, u64> {
    map k | k in m.Keys + n.Keys :: if k !in m then n[k] else if k !in n then m[k] else SaturatingAdd(m[k], n[k])
  }

  lemma IsPlus<K>(m: map<K, u64>, n: map<K, u64>, r: map<K, u64>)
    requires r.Keys == m.Keys + n.Keys
    requires forall k | k in r ::
               r[k] == if k !in m then n[k] else if k !in n then m[k] else SaturatingAdd(m[k], n[k])
    ensures r == Plus(m, n)
  {
    hide SaturatingAdd;
  }

  lemma PlusLess<K>(m: map<K, u64>, n: map<K, u64>, k: K)
    requires k in n
    ensures k in Plus(m, n) && Plus(m, n)[k] == if k in m then SaturatingAdd(m[k], n[k]) else n[k]
    ensures Plus(m, n) - {k} == Plus(m - {k}, n - {k})
  {
    hide SaturatingAdd;
  }

  lemma Exchange(a: u64, b: u64, c: u64, d: u64)
    ensures SaturatingAdd(SaturatingAdd(a, b), SaturatingAdd(c, d)) ==
              SaturatingAdd(SaturatingAdd(a, c), SaturatingAdd(b, d))
    ensures SaturatingAdd(b, SaturatingAdd(c, d)) == SaturatingAdd(c, SaturatingAdd(b, d))
  {}

  lemma PlusNothing<K(!new)>(m: map<K, u64>)
    ensures Total(Plus(m, map[])) == SaturatingAdd(Total(m), Total<K>(map[]))
  {
    assert Plus(m, map[]) == m;
  }

  lemma TotalOfPlusLess<K(!new)>(m: map<K, u64>, n: map<K, u64>, k: K)
    requires k in n && Total(Plus(m - {k}, n - {k})) == SaturatingAdd(Total(m - {k}), Total(n - {k}))
    ensures Total(Plus(m, n)) == SaturatingAdd(Total(m), Total(n))
  {
    hide SaturatingAdd, Total, Plus;
    PlusLess(m, n, k);
    TotalLess(n, k);
    TotalLess(Plus(m, n), k);
    if k in m {
      TotalLess(m, k);
      Exchange(m[k], n[k], Total(m - {k}), Total(n - {k}));
    } else {
      assert m - {k} == m;
      Exchange(0, n[k], Total(m), Total(n - {k}));
    }
  }

  /** Adding maps adds their totals. */
  lemma {:induction false} TotalOfPlus<K(!new)>(m: map<K, u64>, n: map<K, u64>)
    ensures Total(Plus(m, n)) == SaturatingAdd(Total(m), Total(n))
    decreases |n|
  {
    hide SaturatingAdd, Total, Plus;
    if n == map[] {
      PlusNothing(m);
    } else {
      var k :| k in n;
      TotalOfPlus(m - {k}, n - {k});
      TotalOfPlusLess(m, n, k);
    }
  }

  /** The entries that are not zero. */
  function Nonzero<K>(m: map<K, u64>): map<K, u64> {
    map k | k in m && m[k] != 0 :: m[k]
  }

  lemma {:induction false} ZerosAddNothing<K(!new)>(m: map<K, u64>)
    ensures Total(Nonzero(m)) == Total(m)
    decreases |m|
  {
    if m == map[] {
      assert Nonzero(m) == map[];
    } else {
      var k :| k in m;
      ZerosAddNothing(m - {k});
      TotalLess(m, k);
      if m[k] == 0 {
        assert Nonzero(m - {k}) == Nonzero(m);
      } else {
        TotalLess(Nonzero(m), k);
        assert Nonzero(m) - {k} == Nonzero(m - {k});
      }
    }
  }

  // ---- One day of a project ----

  /**
    For each local user their usage, their usage on each component, their jobs and how long
    these waited; then how many jobs there were and how long they all waited, which is all that
    older instances report of them.
   */
  datatype Daily = Daily(
    usage: map<string, u64>,
    components: map<string, map<string, u64>>,
    jobs: map<string, u64>,
    waits: map<string, u64>,
    numJobs: u64,
    totalWait: u64,
    complete: bool
  )

  /** What is counted by local user. */
  datatype Kind = Usage | Component(name: string) | Jobs | Waits

  function Entries(d: Daily, kind: Kind): map<string, u64> {
    match kind
    case Usage => d.usage
    case Component(c) => if c in d.components then d.components[c] else map[]
    case Jobs => d.jobs
    case Waits => d.waits
  }

  ghost function DailyTotal(d: Daily, kind: Kind): u64 {
    Total(Entries(d, kind))
  }

  lemma PlusOne(m: map<string, u64>, user: string, amount: u64)
    ensures m[user := SaturatingAdd(if user in m then m[user] else 0, amount)] == Plus(m, map[user := amount])
  {}

  method AddUsage(d: Daily, user: string, amount: u64) returns (r: Daily)
    ensures r == d.(usage := Plus(d.usage, map[user := amount]))
  {
    var before := if user in d.usage then d.usage[user] else 0;
    r := d.(usage := d.usage[user := SaturatingAdd(before, amount)]);
  }

  /** Every component but `component` is as it was. */
  ghost predicate OthersKept(d: Daily, component: string, r: Daily) {
    && r == d.(components := r.components)
    && forall c | c != component :: Entries(r, Component(c)) == Entries(d, Component(c))
  }

  /** Nothing is recorded for no usage. */
  method AddComponentUsage(d: Daily, component: string, user: string, amount: u64) returns (r: Daily)
    ensures Entries(r, Component(component)) == if amount == 0 then Entries(d, Component(component))
                                           else Plus(Entries(d, Component(component)), map[user := amount])
    ensures OthersKept(d, component, r)
  {
    if amount == 0 {
      return d;
    }
    hide Plus, SaturatingAdd;
    var entries := if component in d.components then d.components[component] else map[];
    PlusOne(entries, user, amount);
    var before := if user in entries then entries[user] else 0;
    entries := entries[user := SaturatingAdd(before, amount)];
    r := d.(components := d.components[component := entries]);
  }

  lemma PlusMore<K>(m: map<K, u64>, n: map<K, u64>, k: K, v: u64)
    requires k !in n
    ensures Plus(Plus(m, n), map[k := v]) == Plus(m, n[k := v])
  {
    hide SaturatingAdd;
  }

  method AddAllUsage(d: Daily, entries: map<string, u64>) returns (r: Daily)
    ensures r == d.(usage := Plus(d.usage, entries))
  {
    r := d;
    assert Plus(d.usage, map[]) == d.usage;
    hide Plus;
    var todo := entries.Keys;
    assert entries - todo == map[] && entries - {} == entries;
    while todo != {}
      invariant todo <= entries.Keys
      invariant r == d.(usage := Plus(d.usage, entries - todo))
    {
      var user :| user in todo;
      PlusMore(d.usage, entries - todo, user, entries[user]);
      assert entries - (todo - {user}) == (entries - todo)[user := entries[user]];
      todo := todo - {user};
      r := AddUsage(r, user, entries[user]);
    }
  }

  lemma OthersKeptOn(a: Daily, b: Daily, c: Daily, component: string)
    requires OthersKept(a, component, b) && OthersKept(b, component, c)
    ensures OthersKept(a, component, c)
  {}

  /** Going through one more entry of a component, which counts only if it is not zero. */
  lemma NonzeroMore(start: map<string, u64>, entries: map<string, u64>, todo: set<string>, user: string)
    requires user in todo && todo <= entries.Keys
    ensures Plus(start, Nonzero(entries - (todo - {user}))) ==
            if entries[user] == 0 then Plus(start, Nonzero(entries - todo))
            else Plus(Plus(start, Nonzero(entries - todo)), map[user := entries[user]])
  {
    hide Plus;
    var before := Nonzero(entries - todo);
    PlusMore(start, before, user, entries[user]);
    assert Nonzero(entries - (todo - {user})) == if entries[user] == 0 then before else before[user := entries[user]];
  }

  method AddAllComponentUsage(d: Daily, component: string, entries: map<string, u64>) returns (r: Daily)
    ensures Entries(r, Component(component)) == Plus(Entries(d, Component(component)), Nonzero(entries))
    ensures OthersKept(d, component, r)
  {
    r := d;
    ghost var start := Entries(d, Component(component));
    var todo := entries.Keys;
    assert Plus(start, Nonzero(entries - todo)) == start && OthersKept(d, component, d);
    hide Plus, Nonzero, OthersKept, Entries;
    while todo != {}
      invariant todo <= entries.Keys
      invariant Entries(r, Component(component)) == Plus(start, Nonzero(entries - todo))
      invariant OthersKept(d, component, r)
    {
      var user :| user in todo;
      NonzeroMore(start, entries, todo, user);
      todo := todo - {user};
      var more := AddComponentUsage(r, component, user, entries[user]);
      OthersKeptOn(d, r, more, component);
      r := more;
    }
    assert entries - {} == entries;
  }

  // ---- Adding up the reports of one day ----

  predicate SumsFit(m: map<string, u64>, n: map<string, u64>) {
    forall k | k in m && k in n :: m[k] + n[k] <= U64_MAX
  }

  /** None of the counters that are added without saturation goes past 64 bits. */
  predicate Fits(a: Daily, b: Daily) {
    SumsFit(a.jobs, b.jobs) && SumsFit(a.waits, b.waits) && a.numJobs + b.numJobs <= U64_MAX
  }

  ghost predicate UsageAddsUp(a: Daily, b: Daily, r: Daily) {
    && r.usage == Plus(a.usage, b.usage)
    && forall c :: Entries(r, Component(c)) == Plus(Entries(a, Component(c)), Nonzero(Entries(b, Component(c))))
  }

  /** `r` has what `a` and `b` have, for each user, in all and on each component, and over all. */
  ghost predicate AddsUp(a: Daily, b: Daily, r: Daily) {
    && UsageAddsUp(a, b, r)
    && r.jobs == Plus(a.jobs, b.jobs) && r.waits == Plus(a.waits, b.waits)
    && r.numJobs == a.numJobs + b.numJobs && r.totalWait == SaturatingAdd(a.totalWait, b.totalWait)
    && !r.complete
  }

  lemma PlusNone(d: Daily, component: string, n: map<string, u64>)
    requires n == map[]
    ensures Plus(Entries(d, Component(component)), Nonzero(n)) == Entries(d, Component(component))
  {}

  method AddUsageOf(a: Daily, b: Daily) returns (r: Daily)
    ensures UsageAddsUp(a, b, r)
    ensures r == a.(usage := r.usage, components := r.components)
  {
    hide Plus, Nonzero;
    r := AddAllUsage(a, b.usage);
    var todo := b.components.Keys;
    while todo != {}
      invariant todo <= b.components.Keys && r == a.(usage := Plus(a.usage, b.usage), components := r.components)
      invariant forall c | c in todo || c !in b.components :: Entries(r, Component(c)) == Entries(a, Component(c))
      invariant forall c | c in b.components && c !in todo ::
                  Entries(r, Component(c)) == Plus(Entries(a, Component(c)), Nonzero(Entries(b, Component(c))))
    {
      var component :| component in todo;
      todo := todo - {component};
      r := AddAllComponentUsage(r, component, b.components[component]);
    }
    forall c | c !in b.components
      ensures Plus(Entries(a, Component(c)), Nonzero(Entries(b, Component(c)))) == Entries(a, Component(c))
    {
      PlusNone(a, c, Entries(b, Component(c)));
    }
  }

  /** Counters are added without saturation. */
  method AddCounts(m: map<string, u64>, n: map<string, u64>) returns (r: map<string, u64>)
    requires SumsFit(m, n)
    ensures r == Plus(m, n)
  {
    r := m;
    var todo := n.Keys;
    while todo != {}
      invariant todo <= n.Keys && r.Keys == m.Keys + (n.Keys - todo)
      invariant forall k | k in r ::
                  r[k] == if k !in m then n[k] else if k !in n || k in todo then m[k] else m[k] + n[k]
    {
      var user :| user in todo;
      todo := todo - {user};
      var before := if user in r then r[user] else 0;
      r := r[user := before + n[user]];
    }
    IsPlus(m, n, r);
  }

  method DailyAddAssign(a: Daily, b: Daily) returns (r: Daily)
    requires Fits(a, b)
    ensures AddsUp(a, b, r)
  {
    r := AddUsageOf(a, b);
    hide UsageAddsUp, Plus, SumsFit;
    var jobs := AddCounts(r.jobs, b.jobs);
    var waits := AddCounts(r.waits, b.waits);
    ghost var added := r;
    r := r.(jobs := jobs, waits := waits, numJobs := r.numJobs + b.numJobs,
            totalWait := SaturatingAdd(r.totalWait, b.totalWait), complete := false);
    SameUsageAddsUp(a, b, added, r);
  }

  lemma SameUsageAddsUp(a: Daily, b: Daily, r: Daily, q: Daily)
    requires UsageAddsUp(a, b, r) && q.usage == r.usage && q.components == r.components
    ensures UsageAddsUp(a, b, q)
  {
    hide Plus, Nonzero;
    assert forall c :: Entries(q, Component(c)) == Entries(r, Component(c));
  }

  /**
    What a day has in all is conserved by merging, be it usage, usage on one component, jobs or
    waits of its users: it saturates and nothing else.
   */
  lemma DailyConserves(a: Daily, b: Daily, r: Daily, kind: Kind)
    requires AddsUp(a, b, r)
    ensures DailyTotal(r, kind) == SaturatingAdd(DailyTotal(a, kind), DailyTotal(b, kind))
    ensures !r.complete
  {
    hide Plus, Nonzero, Total, SaturatingAdd;
    if kind.Component? {
      ZerosAddNothing(Entries(b, kind));
      TotalOfPlus(Entries(a, kind), Nonzero(Entries(b, kind)));
    } else {
      TotalOfPlus(Entries(a, kind), Entries(b, kind));
    }
  }

  function UsageOf(m: map<string, u64>, name: string): u64 {
    if name in m then m[name] else 0
  }

  /** Each user has what both days have for them, of every kind: it saturates and nothing else. */
  lemma UserConserves(a: Daily, b: Daily, r: Daily, kind: Kind, user: string)
    requires AddsUp(a, b, r)
    ensures UsageOf(Entries(r, kind), user) ==
              SaturatingAdd(UsageOf(Entries(a, kind), user), UsageOf(Entries(b, kind), user))
  {
    if kind.Component? {
      assert Entries(r, kind) == Plus(Entries(a, kind), Nonzero(Entries(b, kind)));
    }
  }

  // ---- Whether the counters agree ----

  /** There is nothing of single users, as from older instances. */
  predicate IsLegacy(d: Daily) {
    d.jobs == map[] && d.waits == map[]
  }

  /** The counters over all are the sums of those of the users, if there are any. */
  ghost predicate IsConsistent(d: Daily) {
    IsLegacy(d) || (ExactTotal(d.jobs) == d.numJobs && ExactTotal(d.waits) == d.totalWait)
  }

  /** It has jobs or waits that are nobody's. */
  predicate IsUnattributed(d: Daily) {
    IsLegacy(d) && (d.numJobs > 0 || d.totalWait > 0)
  }

  lemma {:induction false} ExactTotalLess<K(!new)>(m: map<K, nat>, k: K)
    requires k in m
    ensures ExactTotal(m) == m[k] + ExactTotal(m - {k})
    decreases |m|
  {
    var j :| j in m && ExactTotal(m) == m[j] + ExactTotal(m - {j});
    hide ExactTotal;
    if j == k {
    } else {
      ExactTotalLess(m - {j}, k);
      ExactTotalLess(m - {k}, j);
      assert m - {j} - {k} == m - {k} - {j};
    }
  }

  lemma ExactTotalOfPlusLess(m: map<string, u64>, n: map<string, u64>, k: string)
    requires SumsFit(m, n) && k in n
    requires ExactTotal(Plus(m - {k}, n - {k})) == ExactTotal(m - {k}) + ExactTotal(n - {k})
    ensures ExactTotal(Plus(m, n)) == ExactTotal(m) + ExactTotal(n)
  {
    PlusLess(m, n, k);
    assert k in m ==> Plus(m, n)[k] == m[k] + n[k];
    hide ExactTotal, Plus;
    ExactTotalLess(n, k);
    ExactTotalLess(Plus(m, n), k);
    if k in m {
      ExactTotalLess(m, k);
    } else {
      assert m - {k} == m;
    }
  }

  lemma ExactPlusNothing(m: map<string, u64>)
    ensures ExactTotal(Plus(m, map[])) == ExactTotal(m) + ExactTotal<string>(map[])
  {
    assert Plus(m, map[]) == m;
  }

  lemma {:induction false} ExactTotalOfPlus(m: map<string, u64>, n: map<string, u64>)
    requires SumsFit(m, n)
    ensures ExactTotal(Plus(m, n)) == ExactTotal(m) + ExactTotal(n)
    decreases |n|
  {
    hide ExactTotal, Plus;
    if n == map[] {
      ExactPlusNothing(m);
    } else {
      var k :| k in n;
      ExactTotalOfPlus(m - {k}, n - {k});
      ExactTotalOfPlusLess(m, n, k);
    }
  }

  lemma LegacySum(a: Daily, b: Daily, r: Daily)
    requires AddsUp(a, b, r)
    ensures IsLegacy(r) <==> IsLegacy(a) && IsLegacy(b)
  {
    assert r.jobs.Keys == a.jobs.Keys + b.jobs.Keys && r.waits.Keys == a.waits.Keys + b.waits.Keys;
  }

  /**
    Exactly when two consistent reports add up to a consistent one: neither names users, or
    neither has jobs or waits that are nobody's and the waits do not saturate. Only where the
    other's waits are already at the limit may a report have waits that are nobody's.
   */
  lemma ConsistentSumIff(a: Daily, b: Daily, r: Daily)
    requires Fits(a, b) && AddsUp(a, b, r) && IsConsistent(a) && IsConsistent(b)
    ensures IsConsistent(r) <==>
            || (IsLegacy(a) && IsLegacy(b))
            || (!IsUnattributed(a) && !IsUnattributed(b) && a.totalWait + b.totalWait <= U64_MAX)
            || (IsLegacy(a) && a.numJobs == 0 && b.totalWait == U64_MAX)
            || (IsLegacy(b) && b.numJobs == 0 && a.totalWait == U64_MAX)
  {
    LegacySum(a, b, r);
    ExactTotalOfPlus(a.jobs, b.jobs);
    ExactTotalOfPlus(a.waits, b.waits);
    hide Plus, UsageAddsUp, SumsFit;
  }

  /** An example: one job that is nobody's and one that is some user's. */
  lemma LegacyJobsDisagree(user: string) returns (a: Daily, b: Daily)
    ensures Fits(a, b) && IsConsistent(a) && IsConsistent(b)
    ensures forall r | AddsUp(a, b, r) :: !IsConsistent(r)
  {
    a := Daily(map[], map[], map[], map[], 1, 0, true);
    b := Daily(map[], map[], map[user := 1], map[], 1, 0, true);
    ExactTotalLess(b.jobs, user);
    assert b.jobs - {user} == map[];
    forall r | AddsUp(a, b, r) ensures !IsConsistent(r) {
      ConsistentSumIff(a, b, r);
    }
  }

  // ---- A project ----

  datatype ProjectReport = ProjectReport(project: Identifier, users: map<User, string>, days: map<int, Daily>)

  ghost function DayTotals(days: map<int, Daily>, kind: Kind): map<int, u64> {
    map d | d in days :: DailyTotal(days[d], kind)
  }

  ghost function ProjectTotal(r: ProjectReport, kind: Kind): u64 {
    Total(DayTotals(r.days, kind))
  }

  ghost predicate DaysAddUp(a: map<int, Daily>, b: map<int, Daily>, r: map<int, Daily>) {
    && r.Keys == a.Keys + b.Keys
    && forall d | d in r :: if d !in a then r[d] == b[d] else if d !in b then r[d] == a[d] else AddsUp(a[d], b[d], r[d])
  }

  ghost predicate ProjectAddsUp(a: ProjectReport, b: ProjectReport, r: ProjectReport) {
    if a.project != b.project then r == a
    else r.project == a.project && r.users == b.users + a.users && DaysAddUp(a.days, b.days, r.days)
  }

  predicate DaysFit(a: map<int, Daily>, b: map<int, Daily>) {
    forall d | d in a && d in b :: Fits(a[d], b[d])
  }

  predicate ProjectsFit(a: ProjectReport, b: ProjectReport) {
    a.project == b.project ==> DaysFit(a.days, b.days)
  }

  method AddDays(a: map<int, Daily>, b: map<int, Daily>) returns (days: map<int, Daily>)
    requires DaysFit(a, b)
    ensures DaysAddUp(a, b, days)
  {
    hide AddsUp, Fits;
    days := a;
    var todo := b.Keys;
    while todo != {}
      invariant todo <= b.Keys && days.Keys == a.Keys + (b.Keys - todo)
      invariant forall d | d in todo && d in a :: days[d] == a[d]
      invariant forall d | d in days && d !in todo ::
                  if d !in a then days[d] == b[d] else if d !in b then days[d] == a[d] else AddsUp(a[d], b[d], days[d])
    {
      SomeDate(todo);
      var d :| d in todo;
      todo := todo - {d};
      if d in days {
        var sum := DailyAddAssign(days[d], b[d]);
        days := days[d := sum];
      } else {
        days := days[d := b[d]];
      }
    }
  }

  method ProjectAddAssign(a: ProjectReport, b: ProjectReport) returns (r: ProjectReport)
    requires ProjectsFit(a, b)
    ensures ProjectAddsUp(a, b, r)
  {
    hide DaysAddUp, DaysFit;
    if a.project != b.project {
      return a;
    }
    var days := AddDays(a.days, b.days);
    var users := a.users;
    var others := b.users.Keys;
    while others != {}
      invariant others <= b.users.Keys
      invariant users == (b.users - others) + a.users
    {
      var u :| u in others;
      others := others - {u};
      if u !in users {
        users := users[u := b.users[u]];
      }
    }
    r := ProjectReport(a.project, users, days);
  }

  lemma DayTotalsAddUp(a: map<int, Daily>, b: map<int, Daily>, r: map<int, Daily>, kind: Kind)
    requires DaysAddUp(a, b, r)
    ensures DayTotals(r, kind) == Plus(DayTotals(a, kind), DayTotals(b, kind))
  {
    hide AddsUp, DailyTotal, SaturatingAdd, Plus;
    forall d | d in r
      ensures DailyTotal(r[d], kind) ==
              if d !in a then DailyTotal(b[d], kind) else if d !in b then DailyTotal(a[d], kind)
              else SaturatingAdd(DailyTotal(a[d], kind), DailyTotal(b[d], kind))
    {
      if d in a && d in b {
        DailyConserves(a[d], b[d], r[d], kind);
      }
    }
    forall d | d in DayTotals(r, kind)
      ensures DayTotals(r, kind)[d] == DailyTotal(r[d], kind)
    {
    }
    IsPlus(DayTotals(a, kind), DayTotals(b, kind), DayTotals(r, kind));
  }

  lemma ProjectConserves(a: ProjectReport, b: ProjectReport, r: ProjectReport, kind: Kind)
    requires a.project == b.project && ProjectAddsUp(a, b, r)
    ensures ProjectTotal(r, kind) == SaturatingAdd(ProjectTotal(a, kind), ProjectTotal(b, kind))
  {
    hide Plus, Total, SaturatingAdd, DayTotals;
    DayTotalsAddUp(a.days, b.days, r.days, kind);
    TotalOfPlus(DayTotals(a.days, kind), DayTotals(b.days, kind));
  }

  /** A local name given by both reports is the first one's; no other project's report adds anything. */
  lemma ProjectKeepsNames(a: ProjectReport, b: ProjectReport, r: ProjectReport, u: User)
    requires ProjectAddsUp(a, b, r)
    ensures a.project != b.project ==> r == a
    ensures u in a.users ==> u in r.users && r.users[u] == a.users[u]
    ensures a.project == b.project && u in b.users && u !in a.users ==> u in r.users && r.users[u] == b.users[u]
    ensures u in r.users ==> u in a.users || u in b.users
    ensures r.project == a.project
  {}

  /** On each day a user has what both reports have for them on that day. */
  lemma ProjectUserConserves(a: ProjectReport, b: ProjectReport, r: ProjectReport, d: int, kind: Kind, user: string)
    requires ProjectAddsUp(a, b, r) && a.project == b.project
    ensures UsedOn(r, d, kind, user) == SaturatingAdd(UsedOn(a, d, kind, user), UsedOn(b, d, kind, user))
    ensures d in r.days <==> d in a.days || d in b.days
  {
    hide AddsUp, Entries;
    if d in a.days && d in b.days {
      UserConserves(a.days[d], b.days[d], r.days[d], kind, user);
    }
  }

  function UsedOn(r: ProjectReport, d: int, kind: Kind, user: string): u64 {
    if d in r.days then UsageOf(Entries(r.days[d], kind), user) else 0
  }

  // ---- A portal ----

  ghost function ProjectTotals(reports: map<Identifier, ProjectReport>, kind: Kind)
    : map<Identifier, u64>
  {
    map p | p in reports :: ProjectTotal(reports[p], kind)
  }

  ghost function PortalTotal(reports: map<Identifier, ProjectReport>, kind: Kind): u64 {
    Total(ProjectTotals(reports, kind))
  }

  ghost predicate PortalAddsUp(a: map<Identifier, ProjectReport>, b: map<Identifier, ProjectReport>,
                               r: map<Identifier, ProjectReport>) {
    && r.Keys == a.Keys + b.Keys
    && forall p | p in r ::
         if p !in a then r[p] == b[p] else if p !in b then r[p] == a[p] else ProjectAddsUp(a[p], b[p], r[p])
  }

  /** Every report is filed under its own project, a project of the portal. */
  ghost predicate Filed(reports: map<Identifier, ProjectReport>, portal: string) {
    forall p | p in reports :: p.portal == portal && reports[p].project == p
  }

  lemma ProjectTotalsAddUp(a: map<Identifier, ProjectReport>, b: map<Identifier, ProjectReport>,
                           r: map<Identifier, ProjectReport>, portal: string, kind: Kind)
    requires PortalAddsUp(a, b, r) && Filed(a, portal) && Filed(b, portal)
    ensures ProjectTotals(r, kind) == Plus(ProjectTotals(a, kind), ProjectTotals(b, kind))
  {
    hide ProjectAddsUp, ProjectTotal, SaturatingAdd, Plus;
    forall p | p in a && p in b
      ensures ProjectTotal(r[p], kind) ==
                SaturatingAdd(ProjectTotal(a[p], kind), ProjectTotal(b[p], kind))
    {
      assert a[p].project == p && b[p].project == p;
      ProjectConserves(a[p], b[p], r[p], kind);
    }
    IsPlus(ProjectTotals(a, kind), ProjectTotals(b, kind), ProjectTotals(r, kind));
  }

  /** So is a portal's. */
  lemma PortalConserves(a: map<Identifier, ProjectReport>, b: map<Identifier, ProjectReport>,
                        r: map<Identifier, ProjectReport>,
                        portal: string, kind: Kind)
    requires PortalAddsUp(a, b, r) && Filed(a, portal) && Filed(b, portal)
    ensures PortalTotal(r, kind) == SaturatingAdd(PortalTotal(a, kind), PortalTotal(b, kind))
  {
    hide Plus, Total, SaturatingAdd, ProjectTotals, PortalAddsUp, Filed;
    ProjectTotalsAddUp(a, b, r, portal, kind);
    TotalOfPlus(ProjectTotals(a, kind), ProjectTotals(b, kind));
  }

  class UsageReport {
    var portal: string
    var reports: map<Identifier, ProjectReport>

    constructor (portal: string)
      ensures this.portal == portal && reports == map[]
    {
      this.portal, reports := portal, map[];
    }

    method AddAssign(other: UsageReport)
      requires portal == other.portal ==>
                 forall p | p in reports && p in other.reports :: ProjectsFit(reports[p], other.reports[p])
      modifies this
      ensures portal == old(portal)
      ensures if old(portal) == old(other.portal) then PortalAddsUp(old(reports), old(other.reports), reports)
              else reports == old(reports)
      ensures old(Filed(reports, portal) && Filed(other.reports, other.portal)) ==> Filed(reports, portal)
    {
      hide ProjectAddsUp, ProjectsFit;
      if portal != other.portal {
        return;
      }
      var start, others := reports, other.reports;
      var todo := others.Keys;
      while todo != {}
        invariant todo <= others.Keys && portal == old(portal) && reports.Keys == start.Keys + (others.Keys - todo)
        invariant forall p | p in todo && p in start :: reports[p] == start[p]
        invariant forall p | p in reports && p !in todo ::
                    if p !in start then reports[p] == others[p] else if p !in others then reports[p] == start[p]
                    else ProjectAddsUp(start[p], others[p], reports[p])
      {
        var p :| p in todo;
        todo := todo - {p};
        if p in reports {
          var sum := ProjectAddAssign(reports[p], others[p]);
          reports := reports[p := sum];
        } else {
          reports := reports[p := others[p]];
        }
      }
      FiledTogether(start, others, reports, portal);
    }

    method TotalUsage() returns (sum: u64)
      ensures sum == PortalTotal(reports, Usage)
    {
      hide ProjectTotal, SaturatingAdd, Total;
      sum := 0;
      ghost var totals := ProjectTotals(reports, Usage);
      var todo := reports.Keys;
      NothingDone(totals, totals.Keys - todo);
      while todo != {}
        invariant todo <= reports.Keys
        invariant SaturatingAdd(sum, Total(totals - (totals.Keys - todo))) == Total(totals)
      {
        var p :| p in todo;
        OneMoreDone(totals, todo, p, sum);
        todo := todo - {p};
        var usage := ProjectTotalUsage(reports[p]);
        sum := SaturatingAdd(sum, usage);
      }
      AllDone(totals, totals.Keys - todo, sum);
    }
  }

  lemma FiledTogether(a: map<Identifier, ProjectReport>, b: map<Identifier, ProjectReport>,
                      r: map<Identifier, ProjectReport>, portal: string)
    requires PortalAddsUp(a, b, r)
    ensures Filed(a, portal) && Filed(b, portal) ==> Filed(r, portal)
  {}

  // ---- Adding up in any order ----

  lemma NothingDone<K(!new)>(totals: map<K, u64>, done: set<K>)
    requires done == {}
    ensures SaturatingAdd(0, Total(totals - done)) == Total(totals)
  {
    assert totals - done == totals;
  }

  lemma OneMoreDone<K(!new)>(totals: map<K, u64>, todo: set<K>, k: K, sum: u64)
    requires todo <= totals.Keys && k in todo
    ensures SaturatingAdd(SaturatingAdd(sum, totals[k]), Total(totals - (totals.Keys - (todo - {k})))) ==
            SaturatingAdd(sum, Total(totals - (totals.Keys - todo)))
  {
    var rest := totals - (totals.Keys - todo);
    hide Total;
    TotalLess(rest, k);
    assert totals - (totals.Keys - (todo - {k})) == rest - {k};
  }

  lemma AllDone<K(!new)>(totals: map<K, u64>, done: set<K>, sum: u64)
    requires totals.Keys <= done
    ensures SaturatingAdd(sum, Total(totals - done)) == sum
  {
    assert totals - done == map[];
  }

  method DailyTotalUsage(d: Daily) returns (sum: u64)
    ensures sum == DailyTotal(d, Usage)
  {
    hide SaturatingAdd, Total;
    sum := 0;
    var todo := d.usage.Keys;
    NothingDone(d.usage, d.usage.Keys - todo);
    while todo != {}
      invariant todo <= d.usage.Keys
      invariant SaturatingAdd(sum, Total(d.usage - (d.usage.Keys - todo))) == Total(d.usage)
    {
      var user :| user in todo;
      OneMoreDone(d.usage, todo, user, sum);
      todo := todo - {user};
      sum := SaturatingAdd(sum, d.usage[user]);
    }
    AllDone(d.usage, d.usage.Keys - todo, sum);
  }

  method ProjectTotalUsage(r: ProjectReport) returns (sum: u64)
    ensures sum == ProjectTotal(r, Usage)
  {
    hide SaturatingAdd, Total, DailyTotal;
    sum := 0;
    ghost var totals := DayTotals(r.days, Usage);
    var todo := r.days.Keys;
    NothingDone(totals, totals.Keys - todo);
    while todo != {}
      invariant todo <= r.days.Keys
      invariant SaturatingAdd(sum, Total(totals - (totals.Keys - todo))) == Total(totals)
    {
      SomeDate(todo);
      var d :| d in todo;
      OneMoreDone(totals, todo, d, sum);
      todo := todo - {d};
      var usage := DailyTotalUsage(r.days[d]);
      sum := SaturatingAdd(sum, usage);
    }
    AllDone(totals, totals.Keys - todo, sum);
  }

  // ---- The exact totals ----

  ghost function ExactDaily(d: Daily, kind: Kind): nat {
    ExactTotal(Entries(d, kind))
  }

  ghost function ExactProject(r: ProjectReport, kind: Kind): nat {
    ExactTotal(map d | d in r.days :: ExactDaily(r.days[d], kind))
  }

  ghost function ExactPortal(reports: map<Identifier, ProjectReport>, kind: Kind): nat {
    ExactTotal(map p | p in reports :: ExactProject(reports[p], kind))
  }

  lemma ProjectTotalIsCapped(r: ProjectReport, kind: Kind)
    ensures ProjectTotal(r, kind) == Capped(ExactProject(r, kind))
  {
    hide Total, ExactTotal, Entries, Capped;
    forall d | d in r.days ensures DayTotals(r.days, kind)[d] == Capped(ExactDaily(r.days[d], kind)) {
      EntriesAreCapped(Entries(r.days[d], kind));
    }
    TotalIsCapped(DayTotals(r.days, kind), map d | d in r.days :: ExactDaily(r.days[d], kind));
  }

  lemma EntriesAreCapped(m: map<string, u64>)
    ensures Total(m) == Capped(ExactTotal(m))
  {
    TotalIsCapped(m, m);
  }

  /** Through three levels of saturating sums a portal's total is the exact sum of every entry, capped once. */
  lemma PortalTotalIsCapped(reports: map<Identifier, ProjectReport>, kind: Kind)
    ensures PortalTotal(reports, kind) == Capped(ExactPortal(reports, kind))
  {
    hide Total, ExactTotal, ProjectTotal, ExactProject, Capped;
    forall p | p in reports
      ensures ProjectTotals(reports, kind)[p] == Capped(ExactProject(reports[p], kind)) {
      ProjectTotalIsCapped(reports[p], kind);
    }
    TotalIsCapped(ProjectTotals(reports, kind), map p | p in reports :: ExactProject(reports[p], kind));
  }

  // ---- Renaming local users ----

  function NewName(names: map<string, string>, name: string): string {
    if name in names then names[name] else name
  }

  /** `r` is `m` with its names changed; where two come to the same name, either may remain. */
  ghost predicate Relabelled(m: map<string, u64>, names: map<string, string>, r: map<string, u64>) {
    && (forall k | k in m :: NewName(names, k) in r)
    && (forall k | k in r :: exists j :: j in m && NewName(names, j) == k && m[j] == r[k])
  }

  predicate Injective(names: map<string, string>, keys: set<string>) {
    forall j, k | j in keys && k in keys && NewName(names, j) == NewName(names, k) :: j == k
  }

  method RelabelMap(m: map<string, u64>, names: map<string, string>) returns (r: map<string, u64>)
    ensures Relabelled(m, names, r)
  {
    r := map[];
    var todo := m.Keys;
    while todo != {}
      invariant todo <= m.Keys
      invariant forall k | k in m && k !in todo :: NewName(names, k) in r
      invariant forall k | k in r :: exists j :: j in m && NewName(names, j) == k && m[j] == r[k]
    {
      var user :| user in todo;
      todo := todo - {user};
      r := r[NewName(names, user) := m[user]];
    }
  }

  /** Nothing is lost or mixed up if no two names in the map come to the same one. */
  lemma RelabelledKeeps(m: map<string, u64>, names: map<string, string>, r: map<string, u64>)
    requires Relabelled(m, names, r) && Injective(names, m.Keys)
    ensures forall k | k in m :: r[NewName(names, k)] == m[k]
  {
    forall k | k in m ensures r[NewName(names, k)] == m[k] {
      var j :| j in m && NewName(names, j) == NewName(names, k) && m[j] == r[NewName(names, k)];
    }
  }

  lemma RelabelledLess(m: map<string, u64>, names: map<string, string>, r: map<string, u64>, k: string)
    requires Relabelled(m, names, r) && Injective(names, m.Keys) && k in m
    ensures Relabelled(m - {k}, names, r - {NewName(names, k)}) && Injective(names, (m - {k}).Keys)
  {
    var m', r' := m - {k}, r - {NewName(names, k)};
    forall n | n in r' ensures exists j :: j in m' && NewName(names, j) == n && m'[j] == r'[n] {
      var j :| j in m && NewName(names, j) == n && m[j] == r[n];
      assert j in m';
    }
  }

  lemma RelabelledTotalLess(m: map<string, u64>, names: map<string, string>, r: map<string, u64>, k: string)
    requires Relabelled(m, names, r) && Injective(names, m.Keys) && k in m
    requires Total(r - {NewName(names, k)}) == Total(m - {k}) && |r - {NewName(names, k)}| == |m - {k}|
    ensures Total(r) == Total(m) && |r| == |m|
  {
    RelabelledKeeps(m, names, r);
    var n := NewName(names, k);
    assert n in r && r[n] == m[k];
    hide Relabelled, Injective, NewName, Total;
    TotalLess(m, k);
    TotalLess(r, n);
    assert (r - {n}).Keys == r.Keys - {n} && (m - {k}).Keys == m.Keys - {k};
  }

  lemma {:induction false} RelabelledTotal(m: map<string, u64>, names: map<string, string>, r: map<string, u64>)
    requires Relabelled(m, names, r) && Injective(names, m.Keys)
    ensures Total(r) == Total(m) && |r| == |m|
    decreases |m|
  {
    if m == map[] {
      assert r == map[];
    } else {
      hide Relabelled, Injective, NewName, Total;
      var k :| k in m;
      RelabelledLess(m, names, r, k);
      RelabelledTotal(m - {k}, names, r - {NewName(names, k)});
      RelabelledTotalLess(m, names, r, k);
    }
  }

  /** The map keeps its number of entries exactly when no two of its names come to the same one. */
  lemma NothingLostIff(m: map<string, u64>, names: map<string, string>, r: map<string, u64>)
    requires Relabelled(m, names, r)
    ensures |r| == |m| <==> Injective(names, m.Keys)
  {
    if Injective(names, m.Keys) {
      RelabelledTotal(m, names, r);
    } else {
      var j, k :| j in m && k in m && NewName(names, j) == NewName(names, k) && j != k;
      assert forall n | n in r :: exists i :: i in m.Keys - {j} && NewName(names, i) == n;
      ImageIsNoLarger(m.Keys - {j}, names, r.Keys);
    }
  }

  lemma {:induction false} ImageIsNoLarger(from: set<string>, names: map<string, string>, image: set<string>)
    requires forall n | n in image :: exists i :: i in from && NewName(names, i) == n
    ensures |image| <= |from|
    decreases |from|
  {
    if from == {} {
      assert image == {};
    } else {
      var i :| i in from;
      forall n | n in image - {NewName(names, i)} ensures exists j :: j in from - {i} && NewName(names, j) == n {
        var j :| j in from && NewName(names, j) == n;
        assert j in from - {i};
      }
      ImageIsNoLarger(from - {i}, names, image - {NewName(names, i)});
    }
  }

  /** Names that come back to themselves bring the map back. */
  lemma RelabelledBack(m: map<string, u64>, names: map<string, string>, there: map<string, u64>,
                       inverse: map<string, string>, back: map<string, u64>)
    requires Relabelled(m, names, there) && Relabelled(there, inverse, back)
    requires forall k | k in m :: NewName(inverse, NewName(names, k)) == k
    ensures back == m
  {
    forall k | k in back ensures k in m && back[k] == m[k] {
      var j :| j in there && NewName(inverse, j) == k && there[j] == back[k];
      var i :| i in m && NewName(names, i) == j && m[i] == there[j];
    }
    forall k | k in m ensures k in back {
      assert NewName(names, k) in there;
    }
  }

  ghost predicate DailyRelabelled(d: Daily, names: map<string, string>, r: Daily) {
    && Relabelled(d.usage, names, r.usage)
    && Relabelled(d.jobs, names, r.jobs) && Relabelled(d.waits, names, r.waits)
    && r.components.Keys == d.components.Keys
    && (forall c | c in d.components :: Relabelled(d.components[c], names, r.components[c]))
    && r.numJobs == d.numJobs && r.totalWait == d.totalWait && r.complete == d.complete
  }

  method RemapLocalUsers(d: Daily, names: map<string, string>) returns (r: Daily)
    ensures DailyRelabelled(d, names, r)
  {
    hide Relabelled;
    var usage := RelabelMap(d.usage, names);
    var components := d.components;
    var todo := d.components.Keys;
    while todo != {}
      invariant todo <= d.components.Keys == components.Keys
      invariant forall c | c in todo :: components[c] == d.components[c]
      invariant forall c | c in d.components && c !in todo :: Relabelled(d.components[c], names, components[c])
    {
      var c :| c in todo;
      todo := todo - {c};
      var entries := RelabelMap(components[c], names);
      components := components[c := entries];
    }
    var jobs := RelabelMap(d.jobs, names);
    var waits := RelabelMap(d.waits, names);
    r := d.(usage := usage, components := components, jobs := jobs, waits := waits);
  }

  /** The local name a user has after the renaming. */
  function NewLocal(r: ProjectReport, mapping: map<User, string>, u: User): string
    requires u in r.users
  {
    if u in mapping then mapping[u] else r.users[u]
  }

  /** No two users would have the same local name. */
  ghost predicate NoMerge(r: ProjectReport, mapping: map<User, string>) {
    forall u, v | u in r.users && v in r.users && NewLocal(r, mapping, u) == NewLocal(r, mapping, v) :: u == v
  }

  /** `names` takes the old local name of every renamed user to a new one. */
  ghost predicate Renaming(r: ProjectReport, mapping: map<User, string>, names: map<string, string>) {
    && (forall u | u in r.users && u in mapping :: r.users[u] in names)
    && (forall n | n in names :: exists u :: u in r.users && u in mapping && r.users[u] == n && mapping[u] == names[n])
  }

  ghost predicate UsersRemapped(r: ProjectReport, mapping: map<User, string>, names: map<string, string>,
                                q: ProjectReport) {
    && q.project == r.project
    && q.users == (map u | u in r.users :: NewLocal(r, mapping, u))
    && q.days.Keys == r.days.Keys
    && forall d | d in r.days :: DailyRelabelled(r.days[d], names, q.days[d])
  }

  datatype Error = WouldMerge(user: User, other: User)

  method CheckInjective(r: ProjectReport, mapping: map<User, string>) returns (clash: Option<Error>)
    ensures clash.None? <==> NoMerge(r, mapping)
  {
    var seen: map<string, User> := map[];
    var todo := r.users.Keys;
    while todo != {}
      invariant todo <= r.users.Keys
      invariant forall u | u in r.users && u !in todo :: var n := NewLocal(r, mapping, u); n in seen && seen[n] == u
      invariant forall n | n in seen :: seen[n] in r.users && seen[n] !in todo && NewLocal(r, mapping, seen[n]) == n
    {
      var u :| u in todo;
      todo := todo - {u};
      var n := if u in mapping then mapping[u] else r.users[u];
      if n in seen {
        return Some(WouldMerge(u, seen[n]));
      }
      seen := seen[n := u];
    }
    clash := None;
  }

  method RenamingOf(r: ProjectReport, mapping: map<User, string>) returns (names: map<string, string>)
    ensures Renaming(r, mapping, names)
  {
    names := map[];
    var todo := r.users.Keys;
    while todo != {}
      invariant todo <= r.users.Keys
      invariant forall u | u in r.users && u in mapping && u !in todo :: r.users[u] in names
      invariant forall n | n in names :: exists u ::
                  u in r.users && u in mapping && r.users[u] == n && mapping[u] == names[n]
    {
      var u :| u in todo;
      todo := todo - {u};
      if u in mapping {
        names := names[r.users[u] := mapping[u]];
      }
    }
  }

  method RelabelDays(days: map<int, Daily>, names: map<string, string>) returns (r: map<int, Daily>)
    ensures r.Keys == days.Keys && forall d | d in days :: DailyRelabelled(days[d], names, r[d])
  {
    hide DailyRelabelled;
    r := days;
    var todo := days.Keys;
    while todo != {}
      invariant todo <= days.Keys == r.Keys
      invariant forall d | d in todo :: r[d] == days[d]
      invariant forall d | d in days && d !in todo :: DailyRelabelled(days[d], names, r[d])
    {
      SomeDate(todo);
      var d :| d in todo;
      todo := todo - {d};
      var daily := RemapLocalUsers(r[d], names);
      r := r[d := daily];
    }
  }

  /** Refused exactly when two users would end up with one local name. */
  method RemapUsers(r: ProjectReport, mapping: map<User, string>)
      returns (res: Result<ProjectReport, Error>, ghost names: map<string, string>)
    ensures res.Ok? <==> NoMerge(r, mapping)
    ensures res.Ok? ==> Renaming(r, mapping, names) && UsersRemapped(r, mapping, names, res.value)
  {
    hide NoMerge, Renaming, DailyRelabelled;
    names := map[];
    var clash := CheckInjective(r, mapping);
    if clash.Some? {
      return Err(clash.value), map[];
    }
    var renaming := RenamingOf(r, mapping);
    names := renaming;
    var users := r.users;
    var todo := r.users.Keys;
    while todo != {}
      invariant todo <= r.users.Keys == users.Keys
      invariant forall u | u in r.users :: users[u] == if u in todo then r.users[u] else NewLocal(r, mapping, u)
    {
      var u :| u in todo;
      todo := todo - {u};
      if u in mapping {
        users := users[u := mapping[u]];
      }
    }
    var days := RelabelDays(r.days, renaming);
    res := Ok(ProjectReport(r.project, users, days));
  }

  // ---- Every renaming has an outcome ----

  ghost function AnyRelabelled(m: map<string, u64>, names: map<string, string>): map<string, u64> {
    var taken := set j | j in m :: NewName(names, j);
    map n | n in taken :: var j :| j in m && NewName(names, j) == n; m[j]
  }

  lemma AnyIsRelabelled(m: map<string, u64>, names: map<string, string>)
    ensures Relabelled(m, names, AnyRelabelled(m, names))
  {}

  lemma SomeDailyRelabelled(d: Daily, names: map<string, string>) returns (r: Daily)
    ensures DailyRelabelled(d, names, r)
  {
    hide Relabelled, AnyRelabelled;
    AnyIsRelabelled(d.usage, names);
    AnyIsRelabelled(d.jobs, names);
    AnyIsRelabelled(d.waits, names);
    forall c | c in d.components
      ensures Relabelled(d.components[c], names, AnyRelabelled(d.components[c], names))
    {
      AnyIsRelabelled(d.components[c], names);
    }
    r := d.(usage := AnyRelabelled(d.usage, names), jobs := AnyRelabelled(d.jobs, names),
            waits := AnyRelabelled(d.waits, names),
            components := map c | c in d.components :: AnyRelabelled(d.components[c], names));
  }

  lemma SomeRemapped(r: ProjectReport, mapping: map<User, string>, names: map<string, string>)
      returns (q: ProjectReport)
    ensures UsersRemapped(r, mapping, names, q)
  {
    hide DailyRelabelled;
    forall d | d in r.days ensures exists e :: DailyRelabelled(r.days[d], names, e) {
      var e := SomeDailyRelabelled(r.days[d], names);
    }
    q := ProjectReport(r.project, map u | u in r.users :: NewLocal(r, mapping, u),
                       map d | d in r.days :: var e :| DailyRelabelled(r.days[d], names, e); e);
  }

  /** The renaming in which `u` is the last user of their local name. */
  lemma RenamingWith(r: ProjectReport, mapping: map<User, string>, u: User) returns (names: map<string, string>)
    requires u in r.users && u in mapping
    ensures Renaming(r, mapping, names) && r.users[u] in names && names[r.users[u]] == mapping[u]
  {
    var renamed := set v | v in r.users && v in mapping :: r.users[v];
    var any: map<string, string> :=
      map n | n in renamed :: var v :| v in r.users && v in mapping && r.users[v] == n; mapping[v];
    names := any[r.users[u] := mapping[u]];
  }

  // ---- When renaming loses nothing ----

  predicate IsRenamed(r: ProjectReport, mapping: map<User, string>, name: string) {
    exists u | u in r.users && u in mapping :: r.users[u] == name
  }

  /** A local name that anything is recorded under, on any day. */
  ghost predicate Appears(r: ProjectReport, name: string) {
    exists d, kind :: d in r.days && name in Entries(r.days[d], kind)
  }

  ghost predicate DistinctLocals(r: ProjectReport) {
    forall u, v | u in r.users && v in r.users && r.users[u] == r.users[v] :: u == v
  }

  /** No new name is one that anything is recorded under and that is not itself renamed. */
  ghost predicate NewNamesAreFree(r: ProjectReport, mapping: map<User, string>) {
    forall u | u in r.users && u in mapping && Appears(r, mapping[u]) :: IsRenamed(r, mapping, mapping[u])
  }

  /** In the entries of one kind on one day, a user's new name stands beside the old one and is not renamed itself. */
  ghost predicate Beside(r: ProjectReport, mapping: map<User, string>, u: User, d: int, kind: Kind) {
    && u in r.users && u in mapping && d in r.days && !IsRenamed(r, mapping, mapping[u])
    && r.users[u] in Entries(r.days[d], kind) && mapping[u] in Entries(r.days[d], kind)
  }

  ghost predicate NoneBeside(r: ProjectReport, mapping: map<User, string>) {
    forall u, d, kind :: !Beside(r, mapping, u, d, kind)
  }

  /** What the check does not cover. */
  ghost predicate NamesAreFree(r: ProjectReport, mapping: map<User, string>) {
    DistinctLocals(r) && NewNamesAreFree(r, mapping)
  }

  lemma FreeIsNotBeside(r: ProjectReport, mapping: map<User, string>)
    requires NewNamesAreFree(r, mapping)
    ensures NoneBeside(r, mapping)
  {
    hide Entries, IsRenamed;
    forall u, d, kind ensures !Beside(r, mapping, u, d, kind) {
      if u in r.users && u in mapping && d in r.days && mapping[u] in Entries(r.days[d], kind) {
        assert Appears(r, mapping[u]);
      }
    }
  }

  /** The new name of a renamed user's old name is that user's new one. */
  lemma RenamingIsExact(r: ProjectReport, mapping: map<User, string>, names: map<string, string>, u: User)
    requires NamesAreFree(r, mapping) && Renaming(r, mapping, names) && u in r.users
    ensures NewName(names, r.users[u]) == NewLocal(r, mapping, u)
  {
    var n := r.users[u];
    if n in names {
      var v :| v in r.users && v in mapping && r.users[v] == n && mapping[v] == names[n];
    }
  }

  lemma NamesStayApart(r: ProjectReport, mapping: map<User, string>, names: map<string, string>, d: int,
                       kind: Kind)
    requires NoneBeside(r, mapping) && NoMerge(r, mapping) && Renaming(r, mapping, names) && d in r.days
    ensures Injective(names, Entries(r.days[d], kind).Keys)
  {
    hide Entries;
    var keys := Entries(r.days[d], kind).Keys;
    forall j, k | j in keys && k in keys && NewName(names, j) == NewName(names, k) ensures j == k {
      SameNewName(r, mapping, names, d, kind, j, k);
      SameNewName(r, mapping, names, d, kind, k, j);
    }
  }

  lemma SameNewName(r: ProjectReport, mapping: map<User, string>, names: map<string, string>, d: int,
                    kind: Kind, j: string, k: string)
    requires NoneBeside(r, mapping) && NoMerge(r, mapping) && Renaming(r, mapping, names) && d in r.days
    requires j in Entries(r.days[d], kind) && k in Entries(r.days[d], kind)
    requires NewName(names, j) == NewName(names, k)
    ensures j in names ==> j == k
  {
    hide Entries;
    if j in names {
      var u :| u in r.users && u in mapping && r.users[u] == j && mapping[u] == names[j];
      assert !Beside(r, mapping, u, d, kind);
      if k in names {
        var v :| v in r.users && v in mapping && r.users[v] == k && mapping[v] == names[k];
        assert NewLocal(r, mapping, u) == NewLocal(r, mapping, v);
      }
    }
  }

  lemma DailyRelabelledAt(d: Daily, names: map<string, string>, r: Daily, kind: Kind)
    requires DailyRelabelled(d, names, r)
    ensures Relabelled(Entries(d, kind), names, Entries(r, kind))
  {}

  /** The totals of every kind, day by day and overall, are as they were. */
  lemma RenamingKeepsTotals(r: ProjectReport, mapping: map<User, string>, names: map<string, string>, q: ProjectReport,
                            kind: Kind)
    requires NoneBeside(r, mapping) && NoMerge(r, mapping) && Renaming(r, mapping, names)
    requires UsersRemapped(r, mapping, names, q)
    ensures DayTotals(q.days, kind) == DayTotals(r.days, kind)
    ensures ProjectTotal(q, kind) == ProjectTotal(r, kind)
  {
    hide NoneBeside, NoMerge, Renaming, DailyRelabelled, Relabelled, Injective, Entries, Total;
    forall d | d in r.days ensures DailyTotal(q.days[d], kind) == DailyTotal(r.days[d], kind) {
      NamesStayApart(r, mapping, names, d, kind);
      DailyRelabelledAt(r.days[d], names, q.days[d], kind);
      RelabelledTotal(Entries(r.days[d], kind), names, Entries(q.days[d], kind));
    }
    assert DayTotals(q.days, kind) == DayTotals(r.days, kind);
  }

  /** Every day has as many entries of each kind as before: none was overwritten. */
  ghost predicate EntriesKept(r: ProjectReport, q: ProjectReport)
    requires q.days.Keys == r.days.Keys
  {
    forall d, kind | d in r.days :: |Entries(q.days[d], kind)| == |Entries(r.days[d], kind)|
  }

  lemma NoneBesideKeeps(r: ProjectReport, mapping: map<User, string>, names: map<string, string>, q: ProjectReport)
    requires NoMerge(r, mapping) && Renaming(r, mapping, names) && UsersRemapped(r, mapping, names, q)
    requires NoneBeside(r, mapping)
    ensures EntriesKept(r, q)
  {
    hide DailyRelabelled, Relabelled, Injective, Entries, NoMerge, NoneBeside;
    forall d, kind | d in r.days ensures |Entries(q.days[d], kind)| == |Entries(r.days[d], kind)| {
      NamesStayApart(r, mapping, names, d, kind);
      DailyRelabelledAt(r.days[d], names, q.days[d], kind);
      NothingLostIff(Entries(r.days[d], kind), names, Entries(q.days[d], kind));
    }
  }

  lemma BesideIsNotInjective(r: ProjectReport, mapping: map<User, string>, names: map<string, string>, u: User,
                             keys: set<string>)
    requires Renaming(r, mapping, names) && u in r.users && u in mapping && !IsRenamed(r, mapping, mapping[u])
    requires r.users[u] in keys && mapping[u] in keys && r.users[u] in names && names[r.users[u]] == mapping[u]
    ensures !Injective(names, keys)
  {
    var j, k := r.users[u], mapping[u];
    assert j != k && k !in names;
    assert NewName(names, j) == NewName(names, k);
  }

  lemma BesideLoses(r: ProjectReport, mapping: map<User, string>, names: map<string, string>, q: ProjectReport, u: User,
                    d: int, kind: Kind)
    requires Renaming(r, mapping, names) && UsersRemapped(r, mapping, names, q)
    requires Beside(r, mapping, u, d, kind) && r.users[u] in names && names[r.users[u]] == mapping[u]
    ensures !EntriesKept(r, q)
  {
    hide DailyRelabelled, Relabelled, Injective, Entries;
    DailyRelabelledAt(r.days[d], names, q.days[d], kind);
    NothingLostIff(Entries(r.days[d], kind), names, Entries(q.days[d], kind));
    BesideIsNotInjective(r, mapping, names, u, Entries(r.days[d], kind).Keys);
  }

  /**
    Exactly when renaming users overwrites nobody's usage, jobs or waits, on any day and any
    component and in whatever order users are gone through: no new name stands beside the old one
    it replaces without being renamed itself.
   */
  lemma RenamingLosesNothingIff(r: ProjectReport, mapping: map<User, string>)
    requires NoMerge(r, mapping)
    ensures (forall names, q | Renaming(r, mapping, names) && UsersRemapped(r, mapping, names, q) ::
               EntriesKept(r, q)) <==> NoneBeside(r, mapping)
  {
    hide NoMerge, Renaming, DailyRelabelled, EntriesKept, Entries, IsRenamed;
    if NoneBeside(r, mapping) {
      forall names, q | Renaming(r, mapping, names) && UsersRemapped(r, mapping, names, q) ensures EntriesKept(r, q) {
        NoneBesideKeeps(r, mapping, names, q);
      }
    } else {
      var u, d, kind :| Beside(r, mapping, u, d, kind);
      var names := RenamingWith(r, mapping, u);
      var q := SomeRemapped(r, mapping, names);
      BesideLoses(r, mapping, names, q, u, d, kind);
    }
  }

  /** With distinct local names there is only one way to rename, so what can be lost is lost. */
  lemma RenamingMustLose(r: ProjectReport, mapping: map<User, string>, names: map<string, string>, q: ProjectReport)
    requires DistinctLocals(r) && Renaming(r, mapping, names) && UsersRemapped(r, mapping, names, q)
    requires !NoneBeside(r, mapping)
    ensures !EntriesKept(r, q)
  {
    hide DailyRelabelled, EntriesKept, Entries, IsRenamed;
    var u, d, kind :| Beside(r, mapping, u, d, kind);
    BesideLoses(r, mapping, names, q, u, d, kind);
  }

  /** The usage of a portal user on each day: what is recorded under their local name. */
  function UserDays(r: ProjectReport, u: User, kind: Kind): map<int, u64>
    requires u in r.users
  {
    map d | d in r.days :: UsageOf(Entries(r.days[d], kind), r.users[u])
  }

  /** Every user of the report has the same usage as before, whether renamed or not. */
  lemma RenamingKeepsUsers(r: ProjectReport, mapping: map<User, string>, names: map<string, string>, q: ProjectReport,
                           u: User, kind: Kind)
    requires NamesAreFree(r, mapping) && NoMerge(r, mapping) && Renaming(r, mapping, names)
    requires UsersRemapped(r, mapping, names, q) && u in r.users
    ensures UserDays(q, u, kind) == UserDays(r, u, kind)
  {
    hide DailyRelabelled, Entries;
    forall d | d in r.days
      ensures UsageOf(Entries(q.days[d], kind), q.users[u]) == UsageOf(Entries(r.days[d], kind), r.users[u])
    {
      OneUserOneDay(r, mapping, names, q, u, d, kind);
    }
  }

  lemma OneUserOneDay(r: ProjectReport, mapping: map<User, string>, names: map<string, string>, q: ProjectReport,
                      u: User, d: int, kind: Kind)
    requires NamesAreFree(r, mapping) && NoMerge(r, mapping) && Renaming(r, mapping, names)
    requires UsersRemapped(r, mapping, names, q) && u in r.users && d in r.days
    ensures UsageOf(Entries(q.days[d], kind), q.users[u]) == UsageOf(Entries(r.days[d], kind), r.users[u])
  {
    var m, n := Entries(r.days[d], kind), Entries(q.days[d], kind);
    DailyRelabelledAt(r.days[d], names, q.days[d], kind);
    FreeIsNotBeside(r, mapping);
    NamesStayApart(r, mapping, names, d, kind);
    RenamingIsExact(r, mapping, names, u);
    hide DailyRelabelled, Entries;
    if r.users[u] in m {
      RelabelledKeeps(m, names, n);
    } else if q.users[u] in n {
      var j :| j in m && NewName(names, j) == q.users[u] && m[j] == n[q.users[u]];
      assert Appears(r, j);
      NobodyElse(r, mapping, names, u, j);
    }
  }

  /** No name that anything is recorded under becomes the new name of another user. */
  lemma NobodyElse(r: ProjectReport, mapping: map<User, string>, names: map<string, string>, u: User, j: string)
    requires NamesAreFree(r, mapping) && NoMerge(r, mapping) && Renaming(r, mapping, names)
    requires u in r.users && Appears(r, j) && NewName(names, j) == NewLocal(r, mapping, u)
    ensures j == r.users[u]
  {
    hide Appears;
    if j in names {
      var v :| v in r.users && v in mapping && r.users[v] == j && mapping[v] == names[j];
      assert NewLocal(r, mapping, u) == NewLocal(r, mapping, v);
    }
  }

  /** The renaming that takes every renamed user back to their old local name. */
  function Inverse(r: ProjectReport, mapping: map<User, string>): map<User, string> {
    map u | u in r.users && u in mapping :: r.users[u]
  }

  lemma NameComesBack(r: ProjectReport, mapping: map<User, string>, names: map<string, string>, q: ProjectReport,
                      back: map<string, string>, k: string)
    requires NamesAreFree(r, mapping) && NoMerge(r, mapping) && Renaming(r, mapping, names)
    requires UsersRemapped(r, mapping, names, q) && Renaming(q, Inverse(r, mapping), back) && Appears(r, k)
    ensures NewName(back, NewName(names, k)) == k
  {
    hide Appears;
    var n := NewName(names, k);
    if k in names {
      var u :| u in r.users && u in mapping && r.users[u] == k && mapping[u] == n;
      assert q.users[u] == n;
      var v :| v in q.users && v in Inverse(r, mapping) && q.users[v] == n && Inverse(r, mapping)[v] == back[n];
      assert NewLocal(r, mapping, u) == NewLocal(r, mapping, v);
    }
  }

  /**
    The inverse renaming is refused exactly if two users shared a local name to begin with. If
    it is not, it restores the report exactly if no new name was one that anything was recorded
    under without being renamed itself.
   */
  lemma RenamingCanBeUndoneIff(r: ProjectReport, mapping: map<User, string>, names: map<string, string>,
                               q: ProjectReport, back: map<string, string>, p: ProjectReport)
    requires NoMerge(r, mapping) && Renaming(r, mapping, names) && UsersRemapped(r, mapping, names, q)
    ensures NoMerge(q, Inverse(r, mapping)) <==> DistinctLocals(r)
    ensures DistinctLocals(r) && Renaming(q, Inverse(r, mapping), back)
            && UsersRemapped(q, Inverse(r, mapping), back, p) ==>
              (p == r <==> NewNamesAreFree(r, mapping))
  {
    UsersComeBack(r, mapping, names, q);
    hide DistinctLocals, NewNamesAreFree, NoMerge, Renaming, DailyRelabelled, NewLocal, Inverse;
    if DistinctLocals(r) && Renaming(q, Inverse(r, mapping), back) && UsersRemapped(q, Inverse(r, mapping), back, p) {
      assert p.users == r.users;
      if NewNamesAreFree(r, mapping) {
        forall d | d in r.days ensures p.days[d] == r.days[d] {
          DayComesBack(r, mapping, names, q, back, p, d);
        }
        assert p.days == r.days;
      } else {
        TakenNameIsGone(r, mapping, names, q, back, p);
      }
    }
  }

  /** Going back, a name that was taken and not renamed goes to the user who had taken it. */
  lemma TakenNameIsGone(r: ProjectReport, mapping: map<User, string>, names: map<string, string>, q: ProjectReport,
                        back: map<string, string>, p: ProjectReport)
    requires UsersRemapped(r, mapping, names, q)
    requires Renaming(q, Inverse(r, mapping), back) && UsersRemapped(q, Inverse(r, mapping), back, p)
    requires !NewNamesAreFree(r, mapping)
    ensures p != r
  {
    hide DailyRelabelled, Entries;
    var u :| u in r.users && u in mapping && Appears(r, mapping[u]) && !IsRenamed(r, mapping, mapping[u]);
    var k := mapping[u];
    var d, kind :| d in r.days && k in Entries(r.days[d], kind);
    assert u in q.users && q.users[u] == k && u in Inverse(r, mapping) && k in back;
    DailyRelabelledAt(q.days[d], back, p.days[d], kind);
    assert k !in Entries(p.days[d], kind);
  }

  lemma UsersComeBack(r: ProjectReport, mapping: map<User, string>, names: map<string, string>, q: ProjectReport)
    requires UsersRemapped(r, mapping, names, q)
    ensures NoMerge(q, Inverse(r, mapping)) <==> DistinctLocals(r)
    ensures (map u | u in q.users :: NewLocal(q, Inverse(r, mapping), u)) == r.users
  {
    hide Appears, DailyRelabelled;
    assert forall u | u in r.users :: NewLocal(q, Inverse(r, mapping), u) == r.users[u];
  }

  lemma EntriesComeBack(r: ProjectReport, mapping: map<User, string>, names: map<string, string>, q: ProjectReport,
                        back: map<string, string>, there: map<string, u64>, again: map<string, u64>, d: int,
                        kind: Kind)
    requires NamesAreFree(r, mapping) && NoMerge(r, mapping) && Renaming(r, mapping, names)
    requires UsersRemapped(r, mapping, names, q) && Renaming(q, Inverse(r, mapping), back) && d in r.days
    requires Relabelled(Entries(r.days[d], kind), names, there) && Relabelled(there, back, again)
    ensures again == Entries(r.days[d], kind)
  {
    hide NamesAreFree, NoMerge, Renaming, Relabelled, UsersRemapped, Inverse, NewName, Entries;
    var m := Entries(r.days[d], kind);
    forall k | k in m ensures NewName(back, NewName(names, k)) == k {
      assert Appears(r, k);
      NameComesBack(r, mapping, names, q, back, k);
    }
    RelabelledBack(m, names, there, back, again);
  }

  lemma DayComesBack(r: ProjectReport, mapping: map<User, string>, names: map<string, string>, q: ProjectReport,
                     back: map<string, string>, p: ProjectReport, d: int)
    requires NamesAreFree(r, mapping) && NoMerge(r, mapping) && Renaming(r, mapping, names)
    requires UsersRemapped(r, mapping, names, q)
    requires Renaming(q, Inverse(r, mapping), back) && UsersRemapped(q, Inverse(r, mapping), back, p) && d in r.days
    ensures p.days[d] == r.days[d]
  {
    hide NamesAreFree, NoMerge, Renaming, Relabelled, Inverse, Entries, Appears;
    var day, there, again := r.days[d], q.days[d], p.days[d];
    forall kind: Kind ensures Entries(again, kind) == Entries(day, kind) {
      DailyRelabelledAt(day, names, there, kind);
      DailyRelabelledAt(there, back, again, kind);
      EntriesComeBack(r, mapping, names, q, back, Entries(there, kind), Entries(again, kind), d, kind);
    }
    SameEntriesSameDay(day, again);
  }

  lemma SameEntriesSameDay(a: Daily, b: Daily)
    requires a.components.Keys == b.components.Keys && a.complete == b.complete
    requires a.numJobs == b.numJobs && a.totalWait == b.totalWait
    requires forall kind: Kind :: Entries(a, kind) == Entries(b, kind)
    ensures a == b
  {
    assert Entries(a, Usage) == Entries(b, Usage);
    assert Entries(a, Jobs) == Entries(b, Jobs) && Entries(a, Waits) == Entries(b, Waits);
    forall c | c in a.components ensures a.components[c] == b.components[c] {
      assert Entries(a, Component(c)) == Entries(b, Component(c));
    }
  }

  /**
    The check looks at users only. Renaming a user to a name that unmapped usage is recorded
    under passes it, and one of the two entries replaces the other.
   */
  lemma RenamingOntoUnmappedLosesUsage(u: User, project: Identifier, d: int, mine: u64, other: u64)
    returns (r: ProjectReport, mapping: map<User, string>)
    requires 0 < mine && 0 < other && mine + other <= U64_MAX
    ensures NoMerge(r, mapping) && d in r.days && DailyTotal(r.days[d], Usage) == mine + other
    ensures forall names, q | Renaming(r, mapping, names) && UsersRemapped(r, mapping, names, q) ::
              DailyTotal(q.days[d], Usage) < mine + other
  {
    var usage: map<string, u64> := map["a" := mine, "b" := other];
    r := ProjectReport(project, map[u := "a"], map[d := Daily(usage, map[], map[], map[], 0, 0, true)]);
    mapping := map[u := "b"];
    assert NoMerge(r, mapping);
    TotalLess(usage, "a");
    assert usage - {"a"} == map["b" := other];
    TotalOfOne("b", other);
    forall names, q | Renaming(r, mapping, names) && UsersRemapped(r, mapping, names, q)
      ensures DailyTotal(q.days[d], Usage) < mine + other
    {
      OnlyRenaming(r, mapping, names, u);
      OntoTheSame(usage, names, q.days[d].usage, mine, other);
    }
  }

  lemma OnlyRenaming(r: ProjectReport, mapping: map<User, string>, names: map<string, string>, u: User)
    requires r.users == map[u := "a"] && mapping == map[u := "b"] && Renaming(r, mapping, names)
    ensures names == map["a" := "b"]
  {
    assert u in r.users && u in mapping && r.users[u] == "a";
    forall n | n in names ensures n == "a" && names[n] == "b" {
      var v :| v in r.users && v in mapping && r.users[v] == n && mapping[v] == names[n];
    }
  }

  lemma TotalOfOne(k: string, v: u64)
    ensures Total(map[k := v]) == v
  {
    var m: map<string, u64> := map[k := v];
    TotalLess(m, k);
    assert m - {k} == map[];
  }

  lemma OntoTheSame(usage: map<string, u64>, names: map<string, string>, r: map<string, u64>, mine: u64, other: u64)
    requires usage == map["a" := mine, "b" := other] && Relabelled(usage, names, r)
    requires "a" in names && names["a"] == "b" && "b" !in names && 0 < mine && 0 < other
    ensures Total(r) < mine + other
  {
    assert "a" in usage && "b" in usage && "b" in r;
    forall k | k in r ensures k == "b" {
      var j :| j in usage && NewName(names, j) == k && usage[j] == r[k];
    }
    assert r == map["b" := r["b"]];
    TotalOfOne("b", r["b"]);
    var j :| j in usage && NewName(names, j) == "b" && usage[j] == r["b"];
  }
}
