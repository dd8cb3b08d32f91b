/** The recommendation feed: projected rows checked against their current sources page by page,
    and the order in which families are merged. */
module RecommendationFeed {
  import opened Wrappers
  import opened Sequences

  datatype Family = IncidentCorrelation | KnowledgeGuidance | AssetReplacement

  datatype State = Active | Superseded | ResolvedBySource | Expired

  datatype Context = Context(kind: string, id: string)

  /** A stored row. Ids are given by their rank in the collation order, times in milliseconds;
      `key` is the generation key of the source the row was projected from. */
  datatype Row = Row(
    id: int, family: Family, state: State, source: string, key: string, contexts: set<Context>, dismissed: bool,
    rank: real, score: real, priority: bool, time: int)

  datatype Source = Source(id: string, key: string, contexts: set<Context>)

  datatype Reason = AccessDenied | QueryFailed | ProjectionStale

  /** Why there are no current sources of a family: the query was denied, or it failed in another way
      or answered that the sources are unavailable. */
  datatype SourceError = PermissionDenied | OtherError

  datatype FamilyPage = Unavailable(reason: Reason) | Empty | Available(rows: seq<Row>)

  datatype Access = Granted | Denied | Failed

  const LIMIT: nat := 200

  // ----- Queries -----

  predicate InContext(context: Option<Context>, contexts: set<Context>) {
    context == None || context.value in contexts
  }

  /** The rows of a family that a query selects, in its order. */
  function Selected(table: seq<Row>, state: State, context: Option<Context>, ids: Option<set<string>>): seq<Row> {
    Filter((r: Row) =>
             r.state == state && InContext(context, r.contexts) && (ids == None || r.source in ids.value), table)
  }

  /** One page and a row to look ahead. */
  function ReadPage(selected: seq<Row>, offset: nat, limit: nat): (page: seq<Row>)
    ensures offset <= |selected| ==>
              |page| <= |selected| - offset && forall k | 0 <= k < |page| :: page[k] == selected[offset + k]
    ensures offset <= |selected| && |page| <= limit ==> offset + |page| == |selected|
    ensures |page| > limit ==> |page| == limit + 1
  {
    if offset >= |selected| then []
    else if |selected| - offset <= limit + 1 then selected[offset..]
    else selected[offset..offset + limit + 1]
  }

  /** `new Map` over the sources: the last source of an id wins. */
  function Expected(sources: seq<Source>): map<string, string> {
    if sources == [] then map[]
    else
      var n := |sources| - 1;
      Expected(sources[..n])[sources[n].id := sources[n].key]
  }

  predicate Current(expected: map<string, string>, r: Row) {
    r.source in expected && expected[r.source] == r.key
  }

  function OnlyCurrent(expected: map<string, string>): Row -> bool {
    r => Current(expected, r)
  }

  /** What a reader is shown: current rows that were not dismissed. */
  function Shown(expected: map<string, string>): Row -> bool {
    r => Current(expected, r) && !r.dismissed
  }

  function Projected(rows: seq<Row>): (s: set<string>) {
    set r | r in rows :: r.source
  }

  /** Every current source has a row that was projected from exactly its present generation. */
  ghost predicate Complete(expected: map<string, string>, selected: seq<Row>) {
    forall id | id in expected :: exists r | r in selected :: r.source == id && r.key == expected[id]
  }

  function Eligible(sources: seq<Source>, context: Option<Context>): seq<Source> {
    Filter((s: Source) => InContext(context, s.contexts), sources)
  }

  // ----- Pages of one family -----

  /** Those of the first `n` rows that pass. */
  ghost function Passing(p: Row -> bool, rows: seq<Row>, n: nat): seq<Row>
    requires n <= |rows|
  {
    if n == 0 then [] else Passing(p, rows, n - 1) + if p(rows[n - 1]) then [rows[n - 1]] else []
  }

  lemma PassingNext(p: Row -> bool, rows: seq<Row>, n: nat)
    requires n < |rows|
    ensures Passing(p, rows, n + 1) == if p(rows[n]) then Passing(p, rows, n) + [rows[n]] else Passing(p, rows, n)
  {
  }

  lemma {:induction false} PassingIsFilter(p: Row -> bool, rows: seq<Row>, n: nat)
    requires n <= |rows|
    ensures Passing(p, rows, n) == Filter(p, rows[..n])
  {
    if n > 0 {
      PassingIsFilter(p, rows, n - 1);
      assert rows[..n][..n - 1] == rows[..n - 1];
    }
  }

  lemma AllPassing(p: Row -> bool, rows: seq<Row>)
    ensures Passing(p, rows, |rows|) == Filter(p, rows)
  {
    PassingIsFilter(p, rows, |rows|);
    assert rows[..|rows|] == rows;
  }

  lemma ProjectedNext(rows: seq<Row>, r: Row)
    ensures Projected(rows + [r]) == Projected(rows) + {r.source}
  {
    forall s | s in Projected(rows) + {r.source} ensures s in Projected(rows + [r]) {
      if s == r.source {
        assert r in rows + [r];
      } else {
        var q :| q in rows && q.source == s;
        assert q in rows + [r];
      }
    }
  }

  /** Counting the projected sources is enough to know that none is missing. */
  lemma CountMeansComplete(expected: map<string, string>, selected: seq<Row>)
    ensures |expected| == |Projected(Filter(OnlyCurrent(expected), selected))| <==> Complete(expected, selected)
  {
    var current := Filter(OnlyCurrent(expected), selected);
    var projected := Projected(current);
    FilterMembers(OnlyCurrent(expected), selected);
    assert projected <= expected.Keys;
    assert |expected| == |expected.Keys|;
    SubsetSize(projected, expected.Keys);
    if Complete(expected, selected) {
      forall id | id in expected ensures id in projected {
        var r :| r in selected && r.source == id && r.key == expected[id];
        assert r in current;
      }
      assert projected == expected.Keys;
    }
    if projected == expected.Keys {
      forall id | id in expected ensures exists r | r in selected :: r.source == id && r.key == expected[id] {
        assert id in projected;
        var r :| r in current && r.source == id;
        assert r in selected;
      }
    }
  }

  /** What the first `at` rows leave shown and projected. */
  ghost predicate Scanned(expected: map<string, string>, selected: seq<Row>, at: nat, rows: seq<Row>,
                          projected: set<string>)
  {
    && at <= |selected| && rows == Passing(Shown(expected), selected, at)
    && projected == Projected(Passing(OnlyCurrent(expected), selected, at))
  }

  lemma ScannedNext(expected: map<string, string>, selected: seq<Row>, at: nat, rows: seq<Row>, projected: set<string>,
                    row: Row)
    requires at < |selected| && row == selected[at] && Scanned(expected, selected, at, rows, projected)
    ensures Scanned(expected, selected, at + 1, if Current(expected, row) && !row.dismissed then rows + [row] else rows,
                    if Current(expected, row) then projected + {row.source} else projected)
  {
    PassingNext(Shown(expected), selected, at);
    PassingNext(OnlyCurrent(expected), selected, at);
    ProjectedNext(Passing(OnlyCurrent(expected), selected, at), row);
  }

  lemma AllScanned(expected: map<string, string>, selected: seq<Row>, rows: seq<Row>, projected: set<string>)
    requires Scanned(expected, selected, |selected|, rows, projected)
    ensures rows == Filter(Shown(expected), selected) && projected == Projected(Filter(OnlyCurrent(expected), selected))
  {
    AllPassing(Shown(expected), selected);
    AllPassing(OnlyCurrent(expected), selected);
  }

  /** The rows of one page, up to its lookahead. */
  method ScanPage(page: seq<Row>, n: nat, expected: map<string, string>, shown: seq<Row>, before: set<string>,
                  ghost selected: seq<Row>, ghost offset: nat)
    returns (rows: seq<Row>, projected: set<string>)
    requires n <= |page| && offset + n <= |selected| && forall k | 0 <= k < n :: page[k] == selected[offset + k]
    requires Scanned(expected, selected, offset, shown, before)
    ensures Scanned(expected, selected, offset + n, rows, projected)
  {
    rows, projected := shown, before;
    ghost var at := offset;
    for k := 0 to n
      invariant at == offset + k && Scanned(expected, selected, at, rows, projected)
    {
      var row := page[k];
      ScannedNext(expected, selected, at, rows, projected, row);
      at := at + 1;
      if row.source !in expected || expected[row.source] != row.key {
        continue;
      }
      projected := projected + {row.source};
      if row.dismissed {
        continue;
      }
      rows := rows + [row];
    }
  }

  /** The paging loop over active rows: what is shown, and which sources have a current row. */
  method ScanActive(selected: seq<Row>, expected: map<string, string>) returns (rows: seq<Row>, projected: set<string>)
    ensures rows == Filter(Shown(expected), selected)
    ensures projected == Projected(Filter(OnlyCurrent(expected), selected))
  {
    rows, projected := [], {};
    var offset := 0;
    while true
      invariant Scanned(expected, selected, offset, rows, projected)
      decreases |selected| - offset
    {
      var page := ReadPage(selected, offset, LIMIT);
      var n := if |page| <= LIMIT then |page| else LIMIT;
      rows, projected := ScanPage(page, n, expected, rows, projected, selected, offset);
      if |page| <= LIMIT {
        break;
      }
      offset := offset + LIMIT;
    }
    AllScanned(expected, selected, rows, projected);
  }

  /** The active rows of a family: available only if no current source lacks its projection, and
      then exactly the current rows that the reader has not dismissed. */
  method ActivePage(table: seq<Row>, context: Option<Context>, sources: Result<seq<Source>, SourceError>)
    returns (page: FamilyPage)
    ensures sources == Err(PermissionDenied) ==> page == Unavailable(AccessDenied)
    ensures sources == Err(OtherError) ==> page == Unavailable(QueryFailed)
    ensures sources.Ok? && Eligible(sources.value, context) == [] ==> page == Empty
    ensures sources.Ok? && Eligible(sources.value, context) != [] ==>
              var expected := Expected(Eligible(sources.value, context));
              var selected := Selected(table, Active, context, Some(expected.Keys));
              page == if Complete(expected, selected) then Available(Filter(Shown(expected), selected))
                      else Unavailable(ProjectionStale)
  {
    if sources.Err? {
      return Unavailable(if sources.error == PermissionDenied then AccessDenied else QueryFailed);
    }
    var eligible := Eligible(sources.value, context);
    if eligible == [] {
      return Empty;
    }
    var expected := Expected(eligible);
    var selected := Selected(table, Active, context, Some(expected.Keys));
    var rows, projected := ScanActive(selected, expected);
    CountMeansComplete(expected, selected);
    if |expected| != |projected| {
      return Unavailable(ProjectionStale);
    }
    return Available(rows);
  }

  /** Source `k` is the last of its id, and is at this generation. */
  ghost predicate LastOf(sources: seq<Source>, k: nat, id: string, key: string)
    requires k < |sources|
  {
    sources[k] == Source(id, key, sources[k].contexts) && forall m | k < m < |sources| :: sources[m].id != id
  }

  ghost predicate AtGeneration(sources: seq<Source>, id: string, key: string) {
    exists k | 0 <= k < |sources| :: LastOf(sources, k, id, key)
  }

  lemma OneMoreSource(before: seq<Source>, last: Source, id: string, key: string)
    ensures AtGeneration(before + [last], id, key)
       <==> if last.id == id then last.key == key else AtGeneration(before, id, key)
  {
    var all, n := before + [last], |before|;
    assert LastOf(all, n, id, key) <==> last.id == id && last.key == key;
    if last.id != id {
      forall k | 0 <= k < n ensures LastOf(all, k, id, key) <==> LastOf(before, k, id, key) {
        assert forall m | k < m < |all| :: all[m] == if m < n then before[m] else last;
      }
    }
  }

  lemma {:induction false} ExpectedIs(sources: seq<Source>, id: string, key: string)
    ensures id in Expected(sources) && Expected(sources)[id] == key <==> AtGeneration(sources, id, key)
  {
    if sources != [] {
      var n := |sources| - 1;
      ExpectedIs(sources[..n], id, key);
      OneMoreSource(sources[..n], sources[n], id, key);
      assert sources == sources[..n] + [sources[n]];
    }
  }

  /** A stored row is shown in an available family exactly if it is active, about the context asked for,
      not dismissed, and projected from the present generation of a source in that context. */
  lemma ShownExactly(table: seq<Row>, context: Option<Context>, sources: seq<Source>, r: Row)
    ensures var eligible := Eligible(sources, context);
            var expected := Expected(eligible);
            r in Filter(Shown(expected), Selected(table, Active, context, Some(expected.Keys)))
            <==> && r in table && r.state == Active && (context.Some? ==> context.value in r.contexts)
                 && !r.dismissed && AtGeneration(eligible, r.source, r.key)
    ensures forall s :: s in Eligible(sources, context)
                   <==> s in sources && (context.Some? ==> context.value in s.contexts)
  {
    var eligible := Eligible(sources, context);
    var expected := Expected(eligible);
    ExpectedIs(eligible, r.source, r.key);
    FilterMembers(Shown(expected), Selected(table, Active, context, Some(expected.Keys)));
    SelectedHas(table, Active, context, Some(expected.Keys), r);
    FilterMembers((s: Source) => InContext(context, s.contexts), sources);
  }

  lemma SelectedHas(table: seq<Row>, state: State, context: Option<Context>, ids: Option<set<string>>, r: Row)
    ensures r in Selected(table, state, context, ids)
       <==> && r in table && r.state == state && (context.Some? ==> context.value in r.contexts)
            && (ids.Some? ==> r.source in ids.value)
  {
    FilterMembers((q: Row) =>
                    q.state == state && InContext(context, q.contexts) && (ids == None || q.source in ids.value),
                  table);
  }

  /** A row of another state is listed exactly if it is about the context asked for and its source may
      still be read. */
  lemma ListedExactly(table: seq<Row>, state: State, context: Option<Context>, access: Row -> Access, r: Row)
    ensures r in Filter(Grants(access), Selected(table, state, context, None))
       <==> && r in table && r.state == state && (context.Some? ==> context.value in r.contexts)
            && access(r) == Granted
  {
    FilterMembers(Grants(access), Selected(table, state, context, None));
    SelectedHas(table, state, context, None, r);
  }

  function Grants(access: Row -> Access): Row -> bool {
    r => access(r) == Granted
  }

  ghost predicate NoneFailed(access: Row -> Access, rows: seq<Row>, n: nat) {
    n <= |rows| && forall i | 0 <= i < n :: access(rows[i]) != Failed
  }

  ghost predicate FirstFailed(access: Row -> Access, rows: seq<Row>, r: Row) {
    exists k | 0 <= k < |rows| :: rows[k] == r && access(r) == Failed && NoneFailed(access, rows, k)
  }

  lemma NoneFailedNext(access: Row -> Access, rows: seq<Row>, n: nat)
    requires n < |rows| && NoneFailed(access, rows, n) && access(rows[n]) != Failed
    ensures NoneFailed(access, rows, n + 1)
  {
  }

  lemma FailsHere(access: Row -> Access, rows: seq<Row>, k: nat)
    requires k < |rows| && NoneFailed(access, rows, k) && access(rows[k]) == Failed
    ensures FirstFailed(access, rows, rows[k])
  {
  }

  /** The paging loop over rows of another state, up to the first failure. */
  method ScanGranted(selected: seq<Row>, access: Row -> Access) returns (rows: seq<Row>, failed: Option<Row>)
    ensures failed == None ==> NoneFailed(access, selected, |selected|) && rows == Filter(Grants(access), selected)
    ensures failed.Some? ==> FirstFailed(access, selected, failed.value)
  {
    ghost var granted := Grants(access);
    rows := [];
    var offset := 0;
    while true
      invariant offset <= |selected| && rows == Passing(granted, selected, offset)
      invariant NoneFailed(access, selected, offset)
      decreases |selected| - offset
    {
      var page := ReadPage(selected, offset, LIMIT);
      var n := if |page| <= LIMIT then |page| else LIMIT;
      ghost var at := offset;
      for k := 0 to n
        invariant at == offset + k && rows == Passing(granted, selected, at)
        invariant NoneFailed(access, selected, at)
      {
        var row := page[k];
        var decision := access(row);
        if decision == Failed {
          FailsHere(access, selected, at);
          return rows, Some(row);
        }
        NoneFailedNext(access, selected, at);
        PassingNext(granted, selected, at);
        if decision == Granted {
          rows := rows + [row];
        }
        at := at + 1;
      }
      if |page| <= LIMIT {
        break;
      }
      offset := offset + LIMIT;
    }
    AllPassing(granted, selected);
    failed := None;
  }

  /** Rows of another state: those whose sources the reader may still see; any failure to decide
      that other than a denial fails the request. */
  method HistoryPage(table: seq<Row>, state: State, context: Option<Context>, access: Row -> Access)
    returns (page: Result<FamilyPage, Row>)
    ensures var selected := Selected(table, state, context, None);
            var granted := Filter(Grants(access), selected);
            match page
            case Ok(p) =>
              NoneFailed(access, selected, |selected|) && p == if granted == [] then Empty else Available(granted)
            case Err(r) => FirstFailed(access, selected, r)
  {
    var rows, failed := ScanGranted(Selected(table, state, context, None), access);
    if failed.Some? {
      return Err(failed.value);
    }
    return Ok(if rows == [] then Empty else Available(rows));
  }

  // ----- The order of the feed -----

  function FamilyOrder(f: Family): nat {
    match f
    case IncidentCorrelation => 0
    case KnowledgeGuidance => 1
    case AssetReplacement => 2
  }

  function Sign(x: real): int {
    if x < 0.0 then -1 else if x > 0.0 then 1 else 0
  }

  /** JavaScript's `a || b` on numbers: the first that is not zero. */
  function Or(a: int, b: int): int {
    if a != 0 then a else b
  }

  /** `familySort`, up to the size of the numbers. */
  function Compare(a: Row, b: Row): int {
    if a.family != b.family then FamilyOrder(a.family) - FamilyOrder(b.family)
    else
      match a.family
      case KnowledgeGuidance => Or(Sign(a.rank - b.rank), a.id - b.id)
      case AssetReplacement =>
        Or((if a.priority then 0 else 1) - (if b.priority then 0 else 1), Or(Sign(b.score - a.score), a.id - b.id))
      case IncidentCorrelation => Or(a.time - b.time, a.id - b.id)
  }

  predicate Sorted(rows: seq<Row>) {
    forall i, j | 0 <= i < j < |rows| :: Compare(rows[i], rows[j]) <= 0
  }

  predicate Distinct(rows: seq<Row>) {
    forall i, j | 0 <= i < j < |rows| :: rows[i].id != rows[j].id
  }

  /** The comparator is a total order on rows that have different ids. */
  lemma CompareIsTotal(a: Row, b: Row, c: Row)
    ensures Compare(a, b) < 0 <==> Compare(b, a) > 0
    ensures Compare(a, b) == 0 ==> a.id == b.id
    ensures Compare(a, a) == 0
    ensures Compare(a, b) <= 0 && Compare(b, c) <= 0 ==> Compare(a, c) <= 0
  {
  }

  /** Incidents come first, the oldest before the others; then articles, the best ranked first; then assets,
      those with priority first and among equals the highest score. Ids decide the rest. */
  predicate InOrder(a: Row, b: Row) {
    if a.family != b.family then a.family == IncidentCorrelation || b.family == AssetReplacement
    else
      match a.family
      case IncidentCorrelation => a.time < b.time || (a.time == b.time && a.id <= b.id)
      case KnowledgeGuidance => a.rank < b.rank || (a.rank == b.rank && a.id <= b.id)
      case AssetReplacement =>
        || (a.priority && !b.priority)
        || (a.priority == b.priority && (a.score > b.score || (a.score == b.score && a.id <= b.id)))
  }

  /** That is the order of a sorted feed. */
  lemma SortedExactly(rows: seq<Row>)
    ensures Sorted(rows) <==> forall i, j | 0 <= i < j < |rows| :: InOrder(rows[i], rows[j])
  {
    forall i, j | 0 <= i < j < |rows| ensures Compare(rows[i], rows[j]) <= 0 <==> InOrder(rows[i], rows[j]) {
      CompareMeans(rows[i], rows[j]);
    }
  }

  lemma CompareMeans(a: Row, b: Row)
    ensures Compare(a, b) <= 0 <==> InOrder(a, b)
  {
  }

  lemma FirstAgree(a: seq<Row>, b: seq<Row>)
    requires a != [] && b != [] && Sorted(a) && Sorted(b) && Distinct(a) && multiset(a) == multiset(b)
    ensures a[0] == b[0]
  {
    assert a[0] in multiset(a) && b[0] in multiset(b);
    var i :| 0 <= i < |b| && b[i] == a[0];
    var j :| 0 <= j < |a| && a[j] == b[0];
    CompareIsTotal(a[0], b[0], a[0]);
  }

  lemma RestOf(a: seq<Row>)
    requires a != []
    ensures a == [a[0]] + a[1..] && multiset(a[1..]) == multiset(a) - multiset{a[0]}
    ensures Sorted(a) ==> Sorted(a[1..])
    ensures Distinct(a) ==> Distinct(a[1..])
  {
    assert a == [a[0]] + a[1..];
    assert forall i | 0 <= i < |a| - 1 :: a[1..][i] == a[i + 1];
  }

  /** So any two ways of sorting the same rows agree: the feed depends on no sorting algorithm. */
  lemma {:induction false} SortIsUnique(a: seq<Row>, b: seq<Row>)
    requires Sorted(a) && Sorted(b) && Distinct(a) && multiset(a) == multiset(b)
    ensures a == b
  {
    if a == [] {
      assert |multiset(b)| == 0;
    } else {
      assert |multiset(a)| == |multiset(b)|;
      FirstAgree(a, b);
      RestOf(a);
      RestOf(b);
      SortIsUnique(a[1..], b[1..]);
    }
  }

  predicate OfFamily(rows: seq<Row>, f: Family) {
    forall r | r in rows :: r.family == f
  }

  lemma SortedJoin(a: seq<Row>, b: seq<Row>)
    requires Sorted(a) && Sorted(b) && forall r, q | r in a && q in b :: Compare(r, q) <= 0
    ensures Sorted(a + b)
  {
    var whole := a + b;
    forall i, j | 0 <= i < j < |whole| ensures Compare(whole[i], whole[j]) <= 0 {
      assert i < |a| ==> whole[i] in a;
      assert j >= |a| ==> whole[j] in b;
    }
  }

  /** The merged feed is the three families one after the other, each in its own order. */
  lemma FeedIsFamilyByFamily(feed: seq<Row>, incidents: seq<Row>, knowledge: seq<Row>, assets: seq<Row>)
    requires Sorted(feed) && Distinct(feed)
    requires Sorted(incidents) && Sorted(knowledge) && Sorted(assets)
    requires OfFamily(incidents, IncidentCorrelation) && OfFamily(knowledge, KnowledgeGuidance)
             && OfFamily(assets, AssetReplacement)
    requires multiset(feed) == multiset(incidents) + multiset(knowledge) + multiset(assets)
    ensures feed == incidents + knowledge + assets
  {
    SortedJoin(incidents, knowledge);
    SortedJoin(incidents + knowledge, assets);
    SortIsUnique(feed, incidents + knowledge + assets);
  }

  /** Pages of the feed taken at consecutive offsets put together the whole feed. */
  function Pages(feed: seq<Row>, offset: nat, limit: nat): seq<Row>
    requires limit > 0
    decreases if offset < |feed| then |feed| - offset else 0
  {
    if offset >= |feed| then []
    else feed[offset..if offset + limit < |feed| then offset + limit else |feed|] + Pages(feed, offset + limit, limit)
  }

  lemma {:induction false} PagesTile(feed: seq<Row>, offset: nat, limit: nat)
    requires limit > 0
    ensures Pages(feed, offset, limit) == if offset < |feed| then feed[offset..] else []
    decreases if offset < |feed| then |feed| - offset else 0
  {
    if offset + limit < |feed| {
      PagesTile(feed, offset + limit, limit);
      assert feed[offset..] == feed[offset..offset + limit] + feed[offset + limit..];
    } else if offset < |feed| {
      PagesTile(feed, offset + limit, limit);
      assert feed[offset..|feed|] + [] == feed[offset..];
    }
  }
}
