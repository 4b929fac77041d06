/**
  Storage reports (storagereport.rs): the newest snapshot of a project's quotas at the top level
  and at most one older snapshot for each day.
 */
module StorageReports {
  import opened Dates
  import opened Identifiers
  import opened Wrappers

  type Quotas = map<string, nat>   // a quota for each volume

  datatype Snapshot = Snapshot(project: Identifier, at: int, projectQuotas: Quotas, userQuotas: map<User, Quotas>)

  datatype Report = Report(top: Snapshot, users: map<User, string>, daily: map<int, Snapshot>)

  /** As the type promises: filed under its own date, and earlier than the top-level date. */
  ghost predicate Valid(r: Report) {
    forall d | d in r.daily :: Day(r.daily[d].at) == d && d < Day(r.top.at)
  }

  /** The snapshot a report shows for each date. */
  function View(r: Report): map<int, Snapshot> {
    r.daily[Day(r.top.at) := r.top]
  }

  // ---- Merging two reports of a project ----

  /** The newest snapshot for each date; the first one where they are equally old. */
  function Join(m: map<int, Snapshot>, n: map<int, Snapshot>): map<int, Snapshot> {
    map d | d in m.Keys + n.Keys ::
      if d !in m then n[d] else if d in n && n[d].at > m[d].at then n[d] else m[d]
  }

  function Newest(a: Report, b: Report): Report {
    if a.top.at >= b.top.at then a else b
  }

  function Older(a: Report, b: Report): Report {
    if a.top.at >= b.top.at then b else a
  }

  /** What the merge leaves in the history: nothing of the older report for the newest date. */
  function History(newest: Report, older: Report): map<int, Snapshot> {
    var date := Day(newest.top.at);
    Join(Join(newest.daily, map[Day(older.top.at) := older.top] - {date}), older.daily - {date})
  }

  function Merged(a: Report, b: Report): (r: Report)
    ensures r.top.project == a.top.project
  {
    if a.top.project != b.top.project then a
    else
      var newest, older := Newest(a, b), Older(a, b);
      Report(newest.top, older.users + newest.users, History(newest, older))
  }

  lemma JoinOneMore(m: map<int, Snapshot>, n: map<int, Snapshot>, date: int, snapshot: Snapshot)
    requires date !in n
    ensures Join(Join(m, n), map[date := snapshot]) == Join(m, n[date := snapshot])
  {}

  lemma JoinNothing(m: map<int, Snapshot>)
    ensures Join(m, map[]) == m
  {}

  method FileSnapshot(daily: map<int, Snapshot>, date: int, snapshot: Snapshot) returns (r: map<int, Snapshot>)
    ensures r == Join(daily, map[date := snapshot])
  {
    r := daily;
    if date !in r || snapshot.at > r[date].at {
      r := r[date := snapshot];
    }
  }

  /** Users of the older report are added, and none of the newer one's are replaced. */
  method MergeUsers(newest: map<User, string>, older: map<User, string>) returns (users: map<User, string>)
    ensures users == older + newest
  {
    users := newest;
    var todo := older.Keys;
    while todo != {}
      invariant todo <= older.Keys
      invariant users == (older - todo) + newest
    {
      var u :| u in todo;
      todo := todo - {u};
      if u !in users {
        users := users[u := older[u]];
      }
    }
  }

  method MergeHistory(start: map<int, Snapshot>, history: map<int, Snapshot>, skip: int)
      returns (daily: map<int, Snapshot>)
    ensures daily == Join(start, history - {skip})
  {
    daily := start;
    var todo := history.Keys;
    while todo != {}
      invariant todo <= history.Keys
      invariant daily == Join(start, history - todo - {skip})
    {
      hide Join;
      SomeDate(todo);
      var date :| date in todo;
      ghost var before := history - todo - {skip};
      todo := todo - {date};
      if date == skip {
        assert history - todo - {skip} == before;
      } else {
        JoinOneMore(start, before, date, history[date]);
        assert history - todo - {skip} == before[date := history[date]];
        daily := FileSnapshot(daily, date, history[date]);
      }
    }
  }

  method Add(a: Report, b: Report) returns (r: Report)
    ensures r == Merged(a, b)
  {
    hide Join, View;
    if a.top.project != b.top.project {
      return a;
    }
    var newest, older := a, b;
    if a.top.at < b.top.at {
      newest, older := b, a;
    }
    var users := MergeUsers(newest.users, older.users);
    var newestDate, olderDate := Day(newest.top.at), Day(older.top.at);
    var daily := newest.daily;
    if olderDate != newestDate {
      daily := FileSnapshot(daily, olderDate, older.top);
    }
    ghost var filed := map[olderDate := older.top] - {newestDate};
    assert filed == if olderDate == newestDate then map[] else map[olderDate := older.top];
    JoinNothing(newest.daily);
    daily := MergeHistory(daily, older.daily, newestDate);
    r := Report(newest.top, users, daily);
  }

  /** Day by day, what the merged history holds of two valid reports. */
  lemma HistoryOfValid(newest: Report, older: Report, d: int)
    requires Valid(newest) && Valid(older) && older.top.at <= newest.top.at
    ensures var h, m, n := History(newest, older), View(newest), View(older);
            && (d in h <==> d != Day(newest.top.at) && (d in m || d in n))
            && (d in h ==> h[d] == if d !in m then n[d] else if d in n && n[d].at > m[d].at then n[d] else m[d])
            && (d in h ==> Day(h[d].at) == d && d < Day(newest.top.at))
  {
    assert Day(older.top.at) <= Day(newest.top.at);
    var date := Day(newest.top.at);
    var first := Join(newest.daily, map[Day(older.top.at) := older.top] - {date});
    assert d in first <==> d in newest.daily || (d == Day(older.top.at) && d != date);
    assert d in older.daily ==> d != Day(older.top.at);
  }

  /**
    Merging is a join. Valid reports of one project merge into a valid one, which shows for
    each date the newest snapshot either report shows, and the newest of all at its top.
   */
  lemma MergeIsJoin(a: Report, b: Report)
    requires Valid(a) && Valid(b) && a.top.project == b.top.project
    ensures Valid(Merged(a, b))
    ensures View(Merged(a, b)) == Join(View(Newest(a, b)), View(Older(a, b)))
    ensures Merged(a, b).top == if b.top.at > a.top.at then b.top else a.top
    ensures forall u :: u in Merged(a, b).users <==> u in a.users || u in b.users
    ensures forall u | u in a.users && u in b.users ::
              Merged(a, b).users[u] == if b.top.at > a.top.at then b.users[u] else a.users[u]
    ensures forall u | u in a.users && u !in b.users :: Merged(a, b).users[u] == a.users[u]
    ensures forall u | u in b.users && u !in a.users :: Merged(a, b).users[u] == b.users[u]
  {
    var newest, older, r := Newest(a, b), Older(a, b), Merged(a, b);
    hide History;
    forall d | d in r.daily ensures Day(r.daily[d].at) == d && d < Day(r.top.at) {
      HistoryOfValid(newest, older, d);
    }
    NewestDay(newest, older);
    hide Valid;
    var joined := Join(View(newest), View(older));
    forall d ensures d in View(r) <==> d in joined {
      HistoryOfValid(newest, older, d);
    }
    forall d | d in joined ensures View(r)[d] == joined[d] {
      HistoryOfValid(newest, older, d);
    }
  }

  /** Valid or not, nothing of the older report is filed under the date of the newer one's top level. */
  lemma NothingBesideTheTop(a: Report, b: Report)
    requires a.top.project == b.top.project
    ensures var r := Merged(a, b);
            Day(r.top.at) in r.daily ==> Day(r.top.at) in Newest(a, b).daily
                                         && r.daily[Day(r.top.at)] == Newest(a, b).daily[Day(r.top.at)]
  {}

  /** Date by date: the newer snapshot, and of two equally old ones that of the newer report. */
  lemma MergedAt(a: Report, b: Report, d: int)
    requires Valid(a) && Valid(b) && a.top.project == b.top.project
    ensures var m, n, v := View(a), View(b), View(Merged(a, b));
            && (d in v <==> d in m || d in n)
            && (d in m && d !in n ==> v[d] == m[d])
            && (d in n && d !in m ==> v[d] == n[d])
            && (d in m && d in n ==>
                  v[d] == if m[d].at > n[d].at then m[d] else if n[d].at > m[d].at then n[d]
                          else if b.top.at > a.top.at then n[d] else m[d])
  {
    hide Merged, View, Valid;
    MergeIsJoin(a, b);
  }

  lemma NewestDay(newest: Report, older: Report)
    requires Valid(newest) && Valid(older) && older.top.at <= newest.top.at
    ensures var date := Day(newest.top.at);
            date in View(older) ==> View(older)[date].at <= newest.top.at
  {
    assert Day(older.top.at) <= Day(newest.top.at);
  }

  /** `m` shows for each date the newest snapshot that any of the reports shows. */
  ghost predicate ShowsNewest(m: map<int, Snapshot>, reports: seq<Report>) {
    && (forall r, d | r in reports && d in View(r) :: d in m && View(r)[d].at <= m[d].at)
    && (forall d | d in m :: exists r :: r in reports && d in View(r) && View(r)[d] == m[d])
  }

  datatype Error = NoReports | Incompatible(project: Identifier, other: Identifier)

  function Combined(first: Report, rest: seq<Report>): Report {
    if rest == [] then first else Merged(Combined(first, rest[..|rest| - 1]), rest[|rest| - 1])
  }

  lemma CombinedMore(first: Report, rest: seq<Report>, last: Report)
    ensures Combined(first, rest + [last]) == Merged(Combined(first, rest), last)
  {
    assert (rest + [last])[..|rest|] == rest;
  }

  method Combine(reports: seq<Report>) returns (r: Result<Report, Error>)
    ensures reports == [] ==> r == Err(NoReports)
    ensures reports != [] ==>
              (r.Ok? <==> forall k | 0 < k < |reports| :: reports[k].top.project == reports[0].top.project)
    ensures r.Ok? ==> r.value == Combined(reports[0], reports[1..])
  {
    hide Merged, Combined;
    if reports == [] {
      return Err(NoReports);
    }
    var combined, rest := reports[0], reports[1..];
    assert combined == Combined(reports[0], []) by { NothingMore(reports[0]); }
    for i := 0 to |rest|
      invariant combined == Combined(reports[0], rest[..i]) && combined.top.project == reports[0].top.project
      invariant forall k | 0 < k < i + 1 :: reports[k].top.project == reports[0].top.project
    {
      if rest[i].top.project != combined.top.project {
        return Err(Incompatible(rest[i].top.project, combined.top.project));
      }
      CombinedMore(reports[0], rest[..i], rest[i]);
      assert rest[..i + 1] == rest[..i] + [rest[i]];
      combined := Add(combined, rest[i]);
    }
    assert rest[..|rest|] == rest;
    r := Ok(combined);
  }

  lemma NothingMore(first: Report)
    ensures Combined(first, []) == first
  {}

  lemma {:induction false} CombinedShowsNewest(first: Report, rest: seq<Report>)
    requires forall r | r in [first] + rest :: Valid(r) && r.top.project == first.top.project
    ensures var c := Combined(first, rest);
            Valid(c) && c.top.project == first.top.project && ShowsNewest(View(c), [first] + rest)
    decreases |rest|
  {
    if rest == [] {
      assert [first] + rest == [first];
    } else {
      var front, last := rest[..|rest| - 1], rest[|rest| - 1];
      assert [first] + rest == [first] + front + [last];
      CombinedShowsNewest(first, front);
      MergeIsJoin(Combined(first, front), last);
      JoinShowsNewest(Combined(first, front), last, [first] + front);
    }
  }

  lemma JoinShowsNewest(c: Report, last: Report, reports: seq<Report>)
    requires ShowsNewest(View(c), reports)
    ensures ShowsNewest(Join(View(Newest(c, last)), View(Older(c, last))), reports + [last])
  {
    hide View;
    var m := Join(View(Newest(c, last)), View(Older(c, last)));
    forall d | d in m ensures exists r :: r in reports + [last] && d in View(r) && View(r)[d] == m[d] {
      if d in View(last) && View(last)[d] == m[d] {
        assert last in reports + [last];
      } else {
        var r :| r in reports && d in View(r) && View(r)[d] == View(c)[d];
        assert r in reports + [last];
      }
    }
  }

  /** Equally old snapshots of a date are the same snapshot. */
  ghost predicate Coherent(reports: seq<Report>) {
    forall r, q, d | r in reports && q in reports && d in View(r) && d in View(q) && View(r)[d].at == View(q)[d].at ::
      View(r)[d] == View(q)[d]
  }

  /** A valid report's snapshots are determined by what it shows. */
  lemma ViewDetermines(r: Report, q: Report)
    requires Valid(r) && Valid(q) && View(r) == View(q)
    ensures r.top == q.top && r.daily == q.daily
  {
    assert Day(r.top.at) in View(q) && Day(q.top.at) in View(r);
    assert Day(r.top.at) == Day(q.top.at);
    assert r.daily == View(r) - {Day(r.top.at)} && q.daily == View(q) - {Day(q.top.at)};
  }

  /**
    So combining gives the same snapshots whatever the order, and however often each report is
    repeated.
   */
  lemma OrderAndRepetitionDoNotMatter(first: Report, rest: seq<Report>, first': Report, rest': seq<Report>)
    requires forall r :: r in [first] + rest <==> r in [first'] + rest'
    requires forall r | r in [first] + rest :: Valid(r) && r.top.project == first.top.project
    requires Coherent([first] + rest)
    ensures Combined(first, rest).top == Combined(first', rest').top
    ensures Combined(first, rest).daily == Combined(first', rest').daily
  {
    hide Combined, View, Valid, ShowsNewest, Coherent;
    var all, all' := [first] + rest, [first'] + rest';
    assert first' in all' && first' in all;
    CombinedShowsNewest(first, rest);
    CombinedShowsNewest(first', rest');
    SameReportsSameNewest(View(Combined(first', rest')), all', all);
    NewestIsUnique(View(Combined(first, rest)), View(Combined(first', rest')), all);
    ViewDetermines(Combined(first, rest), Combined(first', rest'));
  }

  lemma SameReportsSameNewest(m: map<int, Snapshot>, reports: seq<Report>, reports': seq<Report>)
    requires ShowsNewest(m, reports) && forall r :: r in reports <==> r in reports'
    ensures ShowsNewest(m, reports')
  {
    hide View;
    forall d | d in m ensures exists r :: r in reports' && d in View(r) && View(r)[d] == m[d] {
      var r :| r in reports && d in View(r) && View(r)[d] == m[d];
      assert r in reports';
    }
  }

  lemma NewestIsUnique(m: map<int, Snapshot>, n: map<int, Snapshot>, reports: seq<Report>)
    requires ShowsNewest(m, reports) && ShowsNewest(n, reports) && Coherent(reports)
    ensures m == n
  {
    hide View;
    forall d | d in m ensures d in n && m[d] == n[d] {
      var r :| r in reports && d in View(r) && View(r)[d] == m[d];
      var q :| q in reports && d in View(q) && View(q)[d] == n[d];
    }
    forall d | d in n ensures d in m {
      var q :| q in reports && d in View(q) && View(q)[d] == n[d];
    }
  }

  // ---- One report for each day ----

  predicate IsEmpty(s: Snapshot) {
    s.projectQuotas == map[] && s.userQuotas == map[]
  }

  /** A snapshot of the report as a report of its own. */
  function Alone(r: Report, s: Snapshot): Report {
    Report(s, r.users, map[])
  }

  /** What stands for a date without a snapshot. */
  function Blank(r: Report, date: int): Report {
    Report(Snapshot(r.top.project, date * SECONDS_A_DAY, map[], map[]), map[], map[])
  }

  predicate Increasing(dates: seq<int>) {
    forall i, j | 0 <= i < j < |dates| :: dates[i] < dates[j]
  }

  method Earliest(dates: set<int>) returns (first: int)
    requires dates != {}
    ensures first in dates && forall d | d in dates :: first <= d
  {
    SomeDate(dates);
    first :| first in dates;
    var todo := dates - {first};
    while todo != {}
      invariant todo <= dates && first in dates
      invariant forall d | d in dates && d !in todo :: first <= d
    {
      SomeDate(todo);
      var d :| d in todo;
      todo := todo - {d};
      if d < first {
        first := d;
      }
    }
  }

  method SortDates(dates: set<int>) returns (sorted: seq<int>)
    ensures Increasing(sorted) && forall d :: d in sorted <==> d in dates
  {
    sorted := [];
    var todo := dates;
    while todo != {}
      invariant todo <= dates && Increasing(sorted)
      invariant forall d :: d in sorted <==> d in dates && d !in todo
      invariant forall i, e | 0 <= i < |sorted| && e in todo :: sorted[i] < e
      decreases |todo|
    {
      var first := Earliest(todo);
      todo := todo - {first};
      sorted := sorted + [first];
    }
  }

  /** The dates whose snapshots hold anything. */
  function InUse(m: map<int, Snapshot>): map<int, Snapshot> {
    map d | d in m && !IsEmpty(m[d]) :: m[d]
  }

  ghost predicate DatedRight(m: map<int, Snapshot>) {
    forall d | d in m :: Day(m[d].at) == d
  }

  /** `out` has a report for each of these snapshots and for no other, in order. */
  ghost predicate OneForEach(m: map<int, Snapshot>, users: map<User, string>, out: seq<Report>) {
    && DatedRight(m)
    && (forall k | 0 <= k < |out| ::
          && out[k].users == users && out[k].daily == map[]
          && Day(out[k].top.at) in m && m[Day(out[k].top.at)] == out[k].top)
    && (forall d | d in m :: exists k :: 0 <= k < |out| && out[k].top == m[d])
    && (forall k, l | 0 <= k < l < |out| :: Day(out[k].top.at) < Day(out[l].top.at))
  }

  lemma ListedByDate(r: Report, m: map<int, Snapshot>, used: seq<int>, out: seq<Report>)
    requires DatedRight(m) && Increasing(used) && |out| == |used|
    requires forall d :: d in used <==> d in m
    requires forall k | 0 <= k < |used| :: used[k] in m && out[k] == Alone(r, m[used[k]])
    ensures OneForEach(m, r.users, out)
  {
    forall d | d in m ensures exists k :: 0 <= k < |out| && out[k].top == m[d] {
      var k :| 0 <= k < |used| && used[k] == d;
      assert out[k].top == m[d];
    }
  }

  /** The days on which anything was in use, in order. */
  method DailyReportsInUse(r: Report) returns (out: seq<Report>)
    requires Valid(r)
    ensures OneForEach(InUse(View(r)), r.users, out)
  {
    var m := View(r);
    assert DatedRight(m);
    hide View, Valid, DatedRight, OneForEach, Alone, IsEmpty;
    var dates := SortDates(m.Keys);
    assert forall j | 0 <= j < |dates| :: dates[j] in dates;
    out := [];
    ghost var used: seq<int> := [];
    for i := 0 to |dates|
      invariant |used| == |out| && Increasing(used)
      invariant forall k | 0 <= k < |used| :: used[k] in m && !IsEmpty(m[used[k]]) && out[k] == Alone(r, m[used[k]])
      invariant forall k, j | 0 <= k < |used| && i <= j < |dates| :: used[k] < dates[j]
      invariant forall j | 0 <= j < i && !IsEmpty(m[dates[j]]) :: dates[j] in used
    {
      if !IsEmpty(m[dates[i]]) {
        out := out + [Alone(r, m[dates[i]])];
        used := used + [dates[i]];
      }
    }
    InUseIsDated(m);
    assert forall d :: d in used <==> d in InUse(m);
    ListedByDate(r, InUse(m), used, out);
  }

  /** The dates that count as in use are those with a quota of any kind. */
  lemma InUseIff(r: Report, d: int)
    ensures d in InUse(View(r)) <==>
            d in View(r) && (View(r)[d].projectQuotas != map[] || View(r)[d].userQuotas != map[])
    ensures d in InUse(View(r)) ==> InUse(View(r))[d] == View(r)[d]
  {}

  lemma InUseIsDated(m: map<int, Snapshot>)
    requires DatedRight(m)
    ensures DatedRight(InUse(m))
  {}

  /** Every date from the earliest to the latest, blank where there is no snapshot. */
  method DailyReports(r: Report) returns (out: seq<Report>, ghost first: int)
    requires Valid(r)
    ensures first in View(r) && forall d | d in View(r) :: first <= d <= Day(r.top.at)
    ensures |out| == Day(r.top.at) - first + 1
    ensures forall k | 0 <= k < |out| ::
              && out[k].daily == map[] && Day(out[k].top.at) == first + k
              && if first + k in View(r) then out[k].top == View(r)[first + k] && out[k].users == r.users
                 else out[k].users == map[] && out[k].top == Snapshot(r.top.project, (first + k) * 86400, map[], map[])
  {
    var view := View(r);
    assert Day(r.top.at) in view;
    var dates := SortDates(view.Keys);
    assert Day(r.top.at) in dates;
    var earliest, latest := dates[0], dates[|dates| - 1];
    first := earliest;
    assert latest in view && latest == Day(r.top.at);
    out := [];
    var date := earliest;
    while date <= latest
      invariant earliest <= date <= latest + 1 && |out| == date - earliest
      invariant forall k | 0 <= k < |out| ::
                  out[k] == if earliest + k in view then Alone(r, view[earliest + k]) else Blank(r, earliest + k)
    {
      out := out + [if date in view then Alone(r, view[date]) else Blank(r, date)];
      date := date + 1;
    }
  }

  /** Combining the daily reports again brings back every snapshot that holds anything. */
  lemma DailyReportsCombine(r: Report, out: seq<Report>)
    requires Valid(r) && OneForEach(InUse(View(r)), r.users, out) && out != []
    requires forall d | d in View(r) :: View(r)[d].project == r.top.project
    ensures View(Combined(out[0], out[1..])) == InUse(View(r))
    ensures InUse(View(r)) == View(r) ==>
              Combined(out[0], out[1..]).top == r.top && Combined(out[0], out[1..]).daily == r.daily
  {
    hide OneForEach, Combined, View, InUse, Valid;
    var m := InUse(View(r));
    assert [out[0]] + out[1..] == out;
    InUseIsWithin(View(r));
    OneForEachAreValid(m, r.users, out, r.top.project);
    assert out[0] in out;
    CombinedShowsNewest(out[0], out[1..]);
    OneForEachIsNewest(m, r.users, out);
    NewestIsUnique(View(Combined(out[0], out[1..])), m, out);
    if m == View(r) {
      ViewDetermines(Combined(out[0], out[1..]), r);
    }
  }

  lemma InUseIsWithin(m: map<int, Snapshot>)
    ensures forall d | d in InUse(m) :: d in m && InUse(m)[d] == m[d]
  {}

  lemma OneForEachAreValid(m: map<int, Snapshot>, users: map<User, string>, out: seq<Report>, project: Identifier)
    requires OneForEach(m, users, out) && forall d | d in m :: m[d].project == project
    ensures forall q | q in out :: Valid(q) && q.top.project == project
  {
    forall q | q in out ensures Valid(q) && q.top.project == project {
      OneOf(m, users, out, q);
    }
  }

  lemma OneOf(m: map<int, Snapshot>, users: map<User, string>, out: seq<Report>, q: Report)
    requires OneForEach(m, users, out) && q in out
    ensures q.daily == map[] && Day(q.top.at) in m && m[Day(q.top.at)] == q.top
    ensures forall d :: d in View(q) <==> d == Day(q.top.at)
    ensures View(q)[Day(q.top.at)] == q.top
  {}

  lemma OneForEachIsNewest(m: map<int, Snapshot>, users: map<User, string>, out: seq<Report>)
    requires OneForEach(m, users, out)
    ensures ShowsNewest(m, out) && Coherent(out)
  {
    forall q | q in out
      ensures Day(q.top.at) in m && m[Day(q.top.at)] == q.top
      ensures forall d :: d in View(q) <==> d == Day(q.top.at)
      ensures View(q)[Day(q.top.at)] == q.top
    {
      OneOf(m, users, out, q);
    }
    forall d | d in m ensures exists q :: q in out && d in View(q) && View(q)[d] == m[d] {
      var k :| 0 <= k < |out| && out[k].top == m[d];
      IsFiledThere(m, users, out, k, d);
      assert out[k] in out;
    }
  }

  lemma IsFiledThere(m: map<int, Snapshot>, users: map<User, string>, out: seq<Report>, k: nat, d: int)
    requires OneForEach(m, users, out) && k < |out| && d in m && out[k].top == m[d]
    ensures d in View(out[k]) && View(out[k])[d] == m[d]
  {
  }

  // ---- Renaming a project ----

  /** The user of the same name in another project. */
  function Renamed(u: User, p: Identifier): User {
    User(u.username, p)
  }

  /** `r` is `m` with its keys renamed; where two come to the same name, either may remain. */
  ghost predicate Rekeyed<V>(m: map<User, V>, p: Identifier, r: map<User, V>) {
    && (forall u | u in m :: Renamed(u, p) in r)
    && (forall k | k in r :: exists u :: u in m && Renamed(u, p) == k && m[u] == r[k])
  }

  ghost predicate OwnKeys<V>(m: map<User, V>, p: Identifier) {
    forall u | u in m :: u == Renamed(u, p)
  }

  method RemapKeys<V>(m: map<User, V>, p: Identifier) returns (r: map<User, V>)
    ensures Rekeyed(m, p, r)
  {
    r := map[];
    var todo := m.Keys;
    while todo != {}
      invariant todo <= m.Keys
      invariant forall u | u in m && u !in todo :: Renamed(u, p) in r
      invariant forall k | k in r :: exists u :: u in m && Renamed(u, p) == k && m[u] == r[k]
    {
      var u :| u in todo;
      todo := todo - {u};
      r := r[Renamed(u, p) := m[u]];
    }
  }

  ghost predicate SnapshotRemapped(s: Snapshot, p: Identifier, r: Snapshot) {
    && r.project == p && r.at == s.at && r.projectQuotas == s.projectQuotas
    && Rekeyed(s.userQuotas, p, r.userQuotas)
  }

  method RemapSnapshot(s: Snapshot, p: Identifier) returns (r: Snapshot)
    ensures SnapshotRemapped(s, p, r)
  {
    var quotas := RemapKeys(s.userQuotas, p);
    r := Snapshot(p, s.at, s.projectQuotas, quotas);
  }

  ghost predicate ReportRemapped(r: Report, p: Identifier, q: Report) {
    && SnapshotRemapped(r.top, p, q.top)
    && Rekeyed(r.users, p, q.users)
    && q.daily.Keys == r.daily.Keys
    && forall d | d in r.daily :: SnapshotRemapped(r.daily[d], p, q.daily[d])
  }

  method RemapProject(r: Report, p: Identifier) returns (q: Report)
    ensures ReportRemapped(r, p, q)
  {
    var users := RemapKeys(r.users, p);
    var top := RemapSnapshot(r.top, p);
    var daily := r.daily;
    var todo := r.daily.Keys;
    while todo != {}
      invariant todo <= r.daily.Keys == daily.Keys
      invariant forall d | d in todo :: daily[d] == r.daily[d]
      invariant forall d | d in r.daily && d !in todo :: SnapshotRemapped(r.daily[d], p, daily[d])
    {
      SomeDate(todo);
      var d :| d in todo;
      todo := todo - {d};
      var snapshot := RemapSnapshot(daily[d], p);
      daily := daily[d := snapshot];
    }
    q := Report(top, users, daily);
  }

  /** Everything in a report is filed under its own project. */
  ghost predicate OwnSnapshot(s: Snapshot, p: Identifier) {
    s.project == p && OwnKeys(s.userQuotas, p)
  }

  ghost predicate Own(r: Report) {
    && OwnSnapshot(r.top, r.top.project)
    && OwnKeys(r.users, r.top.project)
    && forall d | d in r.daily :: OwnSnapshot(r.daily[d], r.top.project)
  }

  lemma KeysStayApart<V>(m: map<User, V>, home: Identifier, p: Identifier, r: map<User, V>)
    requires OwnKeys(m, home) && Rekeyed(m, p, r)
    ensures OwnKeys(r, p)
    ensures forall u, v | u in m && v in m && Renamed(u, p) == Renamed(v, p) :: u == v
    ensures forall u | u in m :: r[Renamed(u, p)] == m[u]
  {
    forall u | u in m ensures r[Renamed(u, p)] == m[u] {
      var v :| v in m && Renamed(v, p) == Renamed(u, p) && m[v] == r[Renamed(u, p)];
      assert v == Renamed(v, home) && u == Renamed(u, home);
    }
    forall k | k in r ensures k == Renamed(k, p) {
      var u :| u in m && Renamed(u, p) == k && m[u] == r[k];
    }
  }

  /**
    Renaming one project's users merges none of them: each has what was filed for them under
    their own name in the new project, and there is nobody else.
   */
  lemma RenamingKeepsApart<V>(m: map<User, V>, home: Identifier, p: Identifier, r: map<User, V>)
    requires (forall u | u in m :: u.project == home) && Rekeyed(m, p, r)
    ensures forall u | u in m :: User(u.username, p) in r && r[User(u.username, p)] == m[u]
    ensures forall k | k in r :: k.project == p && User(k.username, home) in m
  {
    assert OwnKeys(m, home);
    KeysStayApart(m, home, p, r);
    forall u | u in m ensures User(u.username, p) in r && r[User(u.username, p)] == m[u] {
      assert Renamed(u, p) == User(u.username, p);
    }
    forall k | k in r ensures k.project == p && User(k.username, home) in m {
      var u := Original(m, p, r, k);
      assert u == User(k.username, home);
    }
  }

  lemma OwnKeysComeBack<V>(m: map<User, V>, home: Identifier, p: Identifier, there: map<User, V>, back: map<User, V>)
    requires OwnKeys(m, home) && Rekeyed(m, p, there) && Rekeyed(there, home, back)
    ensures back == m
  {
    KeysStayApart(m, home, p, there);
    KeysStayApart(there, p, home, back);
    hide Rekeyed;
    forall u | u in m ensures u in back && back[u] == m[u] {
      RenamedIsKey(m, p, there, u);
      RenamedIsKey(there, home, back, Renamed(u, p));
      assert u == Renamed(Renamed(u, p), home);
    }
    forall k | k in back ensures k in m {
      var v := Original(there, home, back, k);
      var u := Original(m, p, there, v);
      assert u == Renamed(u, home) == Renamed(v, home);
    }
  }

  lemma RenamedIsKey<V>(m: map<User, V>, p: Identifier, r: map<User, V>, u: User)
    requires Rekeyed(m, p, r) && u in m
    ensures Renamed(u, p) in r
  {}

  lemma Original<V>(m: map<User, V>, p: Identifier, r: map<User, V>, k: User) returns (u: User)
    requires Rekeyed(m, p, r) && k in r
    ensures u in m && Renamed(u, p) == k
  {
    u :| u in m && Renamed(u, p) == k && m[u] == r[k];
  }

  /** There and back again restores a map of users exactly when all are of that project. */
  lemma KeysThereAndBack<V>(m: map<User, V>, home: Identifier, p: Identifier, there: map<User, V>, back: map<User, V>)
    requires Rekeyed(m, p, there) && Rekeyed(there, home, back)
    ensures back == m <==> OwnKeys(m, home)
  {
    if OwnKeys(m, home) {
      OwnKeysComeBack(m, home, p, there, back);
    } else {
      forall k | k in back ensures k == Renamed(k, home) {
        var _ := Original(there, home, back, k);
      }
    }
  }

  lemma SnapshotThereAndBack(s: Snapshot, home: Identifier, p: Identifier, there: Snapshot, back: Snapshot)
    requires SnapshotRemapped(s, p, there) && SnapshotRemapped(there, home, back)
    ensures back == s <==> OwnSnapshot(s, home)
  {
    KeysThereAndBack(s.userQuotas, home, p, there.userQuotas, back.userQuotas);
  }

  /** Remapping a report to another project and back restores it, history and all,
      exactly if it is filed under its own. */
  lemma RemapThereAndBack(r: Report, p: Identifier, there: Report, back: Report)
    requires ReportRemapped(r, p, there) && ReportRemapped(there, r.top.project, back)
    ensures back == r <==> Own(r)
  {
    hide Rekeyed, OwnKeys;
    var home := r.top.project;
    SnapshotThereAndBack(r.top, home, p, there.top, back.top);
    KeysThereAndBack(r.users, home, p, there.users, back.users);
    forall d | d in r.daily ensures back.daily[d] == r.daily[d] <==> OwnSnapshot(r.daily[d], home) {
      SnapshotThereAndBack(r.daily[d], home, p, there.daily[d], back.daily[d]);
    }
    hide SnapshotRemapped, OwnSnapshot;
    assert back.daily.Keys == r.daily.Keys;
    if Own(r) {
      assert forall d | d in r.daily :: OwnSnapshot(r.daily[d], home) && back.daily[d] == r.daily[d];
      assert back.daily == r.daily;
    }
  }

  lemma RemappedIsOwn(r: Report, p: Identifier, q: Report)
    requires ReportRemapped(r, p, q)
    ensures Own(q) && q.top.project == p
  {
    RekeyedIsOwn(r.users, p, q.users);
    RekeyedIsOwn(r.top.userQuotas, p, q.top.userQuotas);
    forall d | d in q.daily ensures OwnSnapshot(q.daily[d], p) {
      RekeyedIsOwn(r.daily[d].userQuotas, p, q.daily[d].userQuotas);
    }
  }

  lemma RekeyedIsOwn<V>(m: map<User, V>, p: Identifier, r: map<User, V>)
    requires Rekeyed(m, p, r)
    ensures OwnKeys(r, p)
  {
    forall k | k in r ensures k == Renamed(k, p) {
      var _ := Original(m, p, r, k);
    }
  }

  // ---- The reports of a portal ----

  function MergedAll(m: map<Identifier, Report>, n: map<Identifier, Report>): map<Identifier, Report> {
    map p | p in m.Keys + n.Keys :: if p !in m then n[p] else if p !in n then m[p] else Merged(m[p], n[p])
  }

  lemma MergedAllMore(m: map<Identifier, Report>, n: map<Identifier, Report>, p: Identifier, r: Report)
    requires p !in n
    ensures p in MergedAll(m, n) <==> p in m
    ensures MergedAll(m, n[p := r]) == MergedAll(m, n)[p := if p in m then Merged(MergedAll(m, n)[p], r) else r]
  {
    hide Merged;
  }

  /** Every project of either portal report is there, with the newest snapshots of both where both have it. */
  lemma PortalShowsNewest(m: map<Identifier, Report>, n: map<Identifier, Report>, p: Identifier)
    requires forall q | q in m :: m[q].top.project == q && Valid(m[q])
    requires forall q | q in n :: n[q].top.project == q && Valid(n[q])
    ensures p in MergedAll(m, n) <==> p in m || p in n
    ensures p in m && p !in n ==> MergedAll(m, n)[p] == m[p]
    ensures p in n && p !in m ==> MergedAll(m, n)[p] == n[p]
    ensures p in m && p in n ==>
              Valid(MergedAll(m, n)[p]) && ShowsNewest(View(MergedAll(m, n)[p]), [m[p], n[p]])
  {
    hide Merged, View, Valid, ShowsNewest;
    if p in m && p in n {
      PairShowsNewest(m[p], n[p]);
    }
  }

  lemma PairShowsNewest(a: Report, b: Report)
    requires Valid(a) && Valid(b) && a.top.project == b.top.project
    ensures Valid(Merged(a, b)) && ShowsNewest(View(Merged(a, b)), [a, b])
  {
    assert Combined(a, [b]) == Merged(a, b) by {
      CombinedMore(a, [], b);
    }
    hide Merged, View, Valid, ShowsNewest;
    CombinedShowsNewest(a, [b]);
    assert [a] + [b] == [a, b];
  }

  lemma MergedAllNothing(m: map<Identifier, Report>)
    ensures MergedAll(m, map[]) == m
  {}

  lemma MergedAllFiled(m: map<Identifier, Report>, n: map<Identifier, Report>, portal: string)
    requires forall p | p in m :: p.portal == portal && m[p].top.project == p
    requires forall p | p in n :: p.portal == portal && n[p].top.project == p
    ensures forall p | p in MergedAll(m, n) :: p.portal == portal && MergedAll(m, n)[p].top.project == p
  {
    hide Merged;
  }

  ghost predicate PortalRemapped(m: map<Identifier, Report>, portal: string, n: map<Identifier, Report>) {
    && (forall p | p in m :: Identifier(p.project, portal) in n)
    && (forall q | q in n :: exists p :: p in m && q == Identifier(p.project, portal) && ReportRemapped(m[p], q, n[q]))
  }

  class StorageReport {
    var portal: string
    var reports: map<Identifier, Report>

    /** Every report is filed under its own project, a project of the portal. */
    ghost predicate Valid()
      reads this
    {
      forall p | p in reports :: p.portal == portal && reports[p].top.project == p
    }

    constructor (portal: string)
      ensures Valid() && this.portal == portal && reports == map[]
    {
      this.portal, reports := portal, map[];
    }

    method SetReport(r: Report) returns (ok: bool)
      requires Valid()
      modifies this
      ensures Valid() && portal == old(portal)
      ensures ok <==> r.top.project.portal == portal
      ensures reports == if ok then old(reports)[r.top.project := r] else old(reports)
    {
      if r.top.project.portal != portal {
        return false;
      }
      reports := reports[r.top.project := r];
      ok := true;
    }

    method AddAssign(other: StorageReport)
      requires Valid() && other.Valid()
      modifies this
      ensures Valid() && portal == old(portal)
      ensures reports ==
              if old(other.portal) != portal then old(reports) else MergedAll(old(reports), old(other.reports))
    {
      hide Merged, MergedAll;
      if portal != other.portal {
        return;
      }
      ghost var start := reports;
      var others := other.reports;
      MergedAllFiled(start, others, portal);
      MergedAllNothing(start);
      var todo := others.Keys;
      assert others - todo == map[] && others - {} == others;
      while todo != {}
        invariant todo <= others.Keys && portal == old(portal)
        invariant reports == MergedAll(start, others - todo)
      {
        var p :| p in todo;
        ghost var before := others - todo;
        todo := todo - {p};
        assert others - todo == before[p := others[p]];
        MergedAllMore(start, before, p, others[p]);
        if p in reports {
          var sum := Add(reports[p], others[p]);
          reports := reports[p := sum];
        } else {
          reports := reports[p := others[p]];
        }
      }
    }

    method RemapPortal(newPortal: string)
      modifies this
      ensures portal == newPortal && PortalRemapped(old(reports), newPortal, reports) && Valid()
    {
      hide ReportRemapped;
      portal := newPortal;
      var start := reports;
      var renamed: map<Identifier, Report> := map[];
      var todo := start.Keys;
      while todo != {}
        invariant todo <= start.Keys && reports == start && portal == newPortal
        invariant forall p | p in start && p !in todo :: Identifier(p.project, newPortal) in renamed
        invariant forall q | q in renamed ::
                    q.portal == newPortal && renamed[q].top.project == q
        invariant forall q | q in renamed ::
                    exists p :: p in start && q == Identifier(p.project, newPortal)
                                && ReportRemapped(start[p], q, renamed[q])
      {
        var p :| p in todo;
        todo := todo - {p};
        var q := Identifier(p.project, newPortal);
        var r := RemapProject(start[p], q);
        RemappedIsOwn(start[p], q, r);
        renamed := renamed[q := r];
      }
      reports := renamed;
    }
  }

  /** Every project, user and snapshot is filed under what it belongs to. */
  ghost predicate Belongs(m: map<Identifier, Report>, portal: string) {
    forall p | p in m :: p.portal == portal && m[p].top.project == p && Own(m[p])
  }

  /** Moving the projects of one portal to another merges none of them. */
  lemma ProjectsStayApart(m: map<Identifier, Report>, home: string, portal: string, n: map<Identifier, Report>)
    requires Belongs(m, home) && PortalRemapped(m, portal, n)
    ensures forall p | p in m :: ReportRemapped(m[p], Identifier(p.project, portal), n[Identifier(p.project, portal)])
    ensures forall p, q | p in m && q in m && Identifier(p.project, portal) == Identifier(q.project, portal) :: p == q
  {
    hide ReportRemapped;
    forall p | p in m ensures ReportRemapped(m[p], Identifier(p.project, portal), n[Identifier(p.project, portal)]) {
      var q := Identifier(p.project, portal);
      var o :| o in m && q == Identifier(o.project, portal) && ReportRemapped(m[o], q, n[q]);
      assert o == Identifier(o.project, home) == p;
    }
  }

  /** Remapping a portal's reports to another portal and back restores them, exactly if all are where they belong. */
  lemma PortalThereAndBack(m: map<Identifier, Report>, home: string, portal: string, there: map<Identifier, Report>,
                           back: map<Identifier, Report>)
    requires PortalRemapped(m, portal, there) && PortalRemapped(there, home, back)
    ensures back == m <==> Belongs(m, home)
  {
    hide ReportRemapped, Own;
    BackBelongs(there, home, back);
    if Belongs(m, home) {
      forall p | p in m ensures p in back && back[p] == m[p] {
        OneComesBack(m, home, portal, there, back, p);
      }
      forall p | p in back ensures p in m {
        var q :| q in there && p == Identifier(q.project, home) && ReportRemapped(there[q], p, back[p]);
        var o :| o in m && q == Identifier(o.project, portal) && ReportRemapped(m[o], q, there[q]);
        assert o == Identifier(o.project, home);
      }
    }
  }

  lemma BackBelongs(there: map<Identifier, Report>, home: string, back: map<Identifier, Report>)
    requires PortalRemapped(there, home, back)
    ensures Belongs(back, home)
  {
    hide ReportRemapped, Own;
    forall p | p in back ensures p.portal == home && back[p].top.project == p && Own(back[p]) {
      var q :| q in there && p == Identifier(q.project, home) && ReportRemapped(there[q], p, back[p]);
      RemappedIsOwn(there[q], p, back[p]);
    }
  }

  lemma OneComesBack(m: map<Identifier, Report>, home: string, portal: string, there: map<Identifier, Report>,
                     back: map<Identifier, Report>, p: Identifier)
    requires Belongs(m, home) && PortalRemapped(m, portal, there) && PortalRemapped(there, home, back) && p in m
    ensures p in back && back[p] == m[p]
  {
    hide ReportRemapped, Own;
    var q := Identifier(p.project, portal);
    ProjectsStayApart(m, home, portal, there);
    BackBelongs(m, portal, there);
    ProjectsStayApart(there, portal, home, back);
    assert p == Identifier(q.project, home);
    RemapThereAndBack(m[p], q, there[q], back[p]);
  }
}
