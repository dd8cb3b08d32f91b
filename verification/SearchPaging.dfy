/** Keyset pagination over candidates that must be authorised one by one. */
module SearchPaging {
  import opened Wrappers
  import opened Sequences

  /** Entity types and ids are given by their rank in the collation order. */
  datatype Key = Key(score: int, entityType: int, entityId: int)

  datatype Candidate = Candidate(key: Key, display: string, state: string, site: string)

  const BATCH: nat := 100
  const CAP: nat := 1000

  /** Best score first, then by type and id. */
  predicate Before(a: Key, b: Key) {
    || a.score > b.score
    || (a.score == b.score && (a.entityType < b.entityType
                               || (a.entityType == b.entityType && a.entityId < b.entityId)))
  }

  ghost predicate Ranked(index: seq<Candidate>) {
    forall i, j | 0 <= i < j < |index| :: Before(index[i].key, index[j].key)
  }

  predicate IsAfter(after: Option<Key>, c: Candidate) {
    after == None || Before(after.value, c.key)
  }

  /** The candidates after a cursor, in order. */
  function After(index: seq<Candidate>, after: Option<Key>): seq<Candidate> {
    Filter(c => IsAfter(after, c), index)
  }

  function Take(cs: seq<Candidate>, n: nat): seq<Candidate> {
    if |cs| <= n then cs else cs[..n]
  }

  function Drop(cs: seq<Candidate>, n: nat): seq<Candidate> {
    if |cs| <= n then [] else cs[n..]
  }

  /** The indexed query: the next `limit` candidates after a cursor. */
  function FindCandidates(index: seq<Candidate>, after: Option<Key>, limit: nat): seq<Candidate> {
    Take(After(index, after), limit)
  }

  datatype Page = Page(data: seq<Candidate>, next: Option<Key>)

  /** What a page is meant to be: the first readable candidates after the cursor among the first
      `CAP`, and a cursor when there are more. */
  function PageOf(candidates: seq<Candidate>, canRead: Candidate -> bool, limit: nat): Page
    requires limit > 0
  {
    var readable := Filter(canRead, Take(candidates, CAP));
    Page(Take(readable, limit), if |readable| > limit then Some(readable[limit - 1].key) else None)
  }

  // ----- Candidates after a cursor -----

  lemma {:induction false} FilterRanked(p: Candidate -> bool, cs: seq<Candidate>)
    requires Ranked(cs)
    ensures Ranked(Filter(p, cs))
  {
    if cs != [] {
      var n := |cs| - 1;
      FilterRanked(p, cs[..n]);
      FilterMembers(p, cs[..n]);
      var kept := Filter(p, cs[..n]);
      forall i | 0 <= i < |kept| ensures Before(kept[i].key, cs[n].key) {
        assert kept[i] in cs[..n];
      }
    }
  }

  /** The candidates after the one at `k` are those behind it. */
  lemma AfterAt(index: seq<Candidate>, k: nat)
    requires Ranked(index) && k < |index|
    ensures After(index, Some(index[k].key)) == index[k + 1..]
  {
    var p := (c: Candidate) => IsAfter(Some(index[k].key), c);
    var n := k + 1;
    SplitAt(index, k, n);
    assert index == index[..n] + index[n..];
    FilterConcat(p, index[..n], index[n..]);
    FilterNone(p, index[..n]);
    FilterAll(p, index[n..]);
  }

  lemma SplitAt(index: seq<Candidate>, k: nat, n: nat)
    requires Ranked(index) && k < |index| && n == k + 1
    ensures forall c | c in index[..n] :: !Before(index[k].key, c.key)
    ensures forall c | c in index[n..] :: Before(index[k].key, c.key)
  {
    forall c | c in index[..n] ensures !Before(index[k].key, c.key) {
      var i :| 0 <= i < n && index[..n][i] == c;
      assert i < k ==> Before(index[i].key, index[k].key);
    }
  }

  /** Moving the cursor to the candidate at `k` of those after it drops the first `k + 1`. */
  lemma AfterMoves(index: seq<Candidate>, after: Option<Key>, k: nat)
    requires Ranked(index) && k < |After(index, after)|
    ensures After(index, Some(After(index, after)[k].key)) == After(index, after)[k + 1..]
  {
    var window := After(index, after);
    var key := window[k].key;
    FilterRanked(c => IsAfter(after, c), index);
    FilterMembers(c => IsAfter(after, c), index);
    AfterAt(window, k);
    assert window[k] in window;
    FilterTwice(index, after, key, window[k]);
  }

  lemma {:induction false} FilterTwice(index: seq<Candidate>, after: Option<Key>, key: Key, c: Candidate)
    requires IsAfter(after, c) && c.key == key
    ensures After(index, Some(key)) == After(After(index, after), Some(key))
  {
    if index != [] {
      var n := |index| - 1;
      FilterTwice(index[..n], after, key, c);
      var kept := After(index[..n], after);
      if IsAfter(after, index[n]) {
        assert (kept + [index[n]])[..|kept|] == kept;
      } else {
        assert kept + [] == kept;
      }
    }
  }

  // ----- The batched scan -----

  /** Scans batches until the page is full, the candidates run out or the cap is reached. */
  method QueryWithAuthorization(index: seq<Candidate>, canRead: Candidate -> bool, limit: nat, after: Option<Key>,
                                knowledge: bool)
    returns (page: Page, scanLimited: bool)
    requires Ranked(index) && limit > 0
    ensures page == PageOf(After(index, after), canRead, limit)
    ensures scanLimited <==> |After(index, after)| >= 1000 && page.next == None && !knowledge
    ensures page.next == None && !scanLimited && !knowledge ==> page.data == Filter(canRead, After(index, after))
  {
    ghost var window := After(index, after);
    var cursor := after;
    var scanned := 0;
    var next: Option<Key> := None;
    var allowed: seq<Candidate> := [];
    while scanned < CAP && |allowed| <= limit
      invariant scanned <= |window| && scanned <= CAP && scanned % BATCH == 0
      invariant After(index, cursor) == window[scanned..]
      invariant allowed == Filter(canRead, window[..scanned]) && |allowed| <= limit
      invariant next == None
      decreases CAP - scanned
    {
      var rows := FindCandidates(index, cursor, BATCH);
      if rows == [] {
        break;
      }
      ghost var reached := scanned + |rows|;
      BatchAdvances(index, window, cursor, scanned, rows, reached, canRead);
      allowed := allowed + Filter(canRead, rows);
      scanned := scanned + |rows|;
      cursor := Some(rows[|rows| - 1].key);
      if |allowed| > limit {
        next := Some(allowed[limit - 1].key);
        break;
      }
      if |rows| < BATCH {
        break;
      }
    }
    ScanIsPage(window, canRead, limit, scanned);
    page := Page(Take(allowed, limit), next);
    scanLimited := scanned >= CAP && next == None && !knowledge;
  }

  lemma BatchAdvances(index: seq<Candidate>, window: seq<Candidate>, cursor: Option<Key>, scanned: nat,
                      rows: seq<Candidate>, reached: nat, canRead: Candidate -> bool)
    requires Ranked(index) && scanned <= |window| && After(index, cursor) == window[scanned..]
    requires rows == FindCandidates(index, cursor, BATCH) && rows != [] && reached == scanned + |rows|
    ensures reached <= |window| && rows == window[scanned..reached]
    ensures |rows| <= BATCH && (|rows| < BATCH ==> reached == |window|)
    ensures After(index, Some(rows[|rows| - 1].key)) == window[reached..]
    ensures Filter(canRead, window[..reached]) == Filter(canRead, window[..scanned]) + Filter(canRead, rows)
  {
    BatchIsNext(window, scanned, rows, reached);
    AfterMoves(index, cursor, |rows| - 1);
    assert After(index, cursor)[|rows| - 1] == rows[|rows| - 1];
    FilterConcat(canRead, window[..scanned], rows);
  }

  lemma BatchIsNext(window: seq<Candidate>, scanned: nat, rows: seq<Candidate>, reached: nat)
    requires scanned <= |window| && rows == Take(window[scanned..], BATCH) && reached == scanned + |rows|
    ensures reached <= |window| && rows == window[scanned..reached]
    ensures |rows| <= BATCH && (|rows| < BATCH ==> reached == |window|)
    ensures window[scanned..][|rows|..] == window[reached..]
    ensures window[..reached] == window[..scanned] + rows
  {}

  /** A scan that stopped for one of its three reasons has seen what the page is made of. */
  lemma ScanIsPage(window: seq<Candidate>, canRead: Candidate -> bool, limit: nat, scanned: nat)
    requires limit > 0 && scanned <= |window| && scanned <= CAP
    requires |Filter(canRead, window[..scanned])| > limit || scanned == |window| || scanned == CAP
    ensures var allowed := Filter(canRead, window[..scanned]);
            PageOf(window, canRead, limit)
            == Page(Take(allowed, limit), if |allowed| > limit then Some(allowed[limit - 1].key) else None)
  {
    var capped := Take(window, CAP);
    assert window[..|window|] == window;
    assert capped == capped[..scanned] + capped[scanned..];
    assert capped[..scanned] == window[..scanned];
    FilterConcat(canRead, capped[..scanned], capped[scanned..]);
    if scanned == |window| || scanned == CAP {
      assert capped[scanned..] == [];
      assert capped == window[..scanned];
    }
  }

  /** The data of a page are readable and in order: scores never rise, and equal scores go by type and id. */
  lemma PageOrder(index: seq<Candidate>, canRead: Candidate -> bool, limit: nat, after: Option<Key>, i: nat, j: nat)
    requires Ranked(index) && limit > 0 && i < j < |PageOf(After(index, after), canRead, limit).data|
    ensures var data := PageOf(After(index, after), canRead, limit).data;
            var a, b := data[i].key, data[j].key;
            && canRead(data[i]) && a.score >= b.score
            && (a.score == b.score ==> a.entityType <= b.entityType)
            && (a.score == b.score && a.entityType == b.entityType ==> a.entityId < b.entityId)
  {
    var window := After(index, after);
    var capped := Take(window, CAP);
    FilterRanked(c => IsAfter(after, c), index);
    FilterRanked(canRead, capped);
    FilterMembers(canRead, capped);
    assert Filter(canRead, capped)[i] in Filter(canRead, capped);
  }

  // ----- Following the cursor -----

  /** A page with a cursor ends at position `k` of what it could see, and the cursor continues
      right behind it. */
  lemma PageMoves(index: seq<Candidate>, canRead: Candidate -> bool, limit: nat, after: Option<Key>) returns (k: nat)
    requires Ranked(index) && limit > 0 && PageOf(After(index, after), canRead, limit).next.Some?
    ensures k < |After(index, after)|
    ensures After(index, PageOf(After(index, after), canRead, limit).next) == After(index, after)[k + 1..]
    ensures PageOf(After(index, after), canRead, limit).data == Filter(canRead, After(index, after)[..k + 1])
  {
    var window := After(index, after);
    var capped := Take(window, CAP);
    k := NthReadable(canRead, capped, limit);
    AfterMoves(index, after, k);
    assert window[..k + 1] == capped[..k + 1] && window[k] == capped[k];
  }

  lemma PageAdvances(index: seq<Candidate>, canRead: Candidate -> bool, limit: nat, after: Option<Key>)
    requires Ranked(index) && limit > 0 && PageOf(After(index, after), canRead, limit).next.Some?
    ensures |After(index, PageOf(After(index, after), canRead, limit).next)| < |After(index, after)|
  {
    var k := PageMoves(index, canRead, limit, after);
  }

  /** The position of the `n`-th readable candidate. */
  lemma {:induction false} NthReadable(p: Candidate -> bool, cs: seq<Candidate>, n: nat) returns (k: nat)
    requires 0 < n <= |Filter(p, cs)|
    ensures k < |cs| && cs[k] == Filter(p, cs)[n - 1] && Filter(p, cs[..k + 1]) == Filter(p, cs)[..n]
  {
    var last := |cs| - 1;
    if n <= |Filter(p, cs[..last])| {
      k := NthReadable(p, cs[..last], n);
      assert cs[..last][..k + 1] == cs[..k + 1];
    } else {
      k := last;
      assert cs[..last + 1] == cs;
    }
  }

  /** All pages from a cursor on, one after the other. */
  ghost function Follow(index: seq<Candidate>, canRead: Candidate -> bool, limit: nat,
                        after: Option<Key>): seq<Candidate>
    requires Ranked(index) && limit > 0
    decreases |After(index, after)|
  {
    var page := PageOf(After(index, after), canRead, limit);
    if page.next == None then page.data
    else
      PageAdvances(index, canRead, limit, after);
      page.data + Follow(index, canRead, limit, page.next)
  }

  /** No readable candidate is hidden behind the cap of the last page. */
  ghost predicate Uncapped(index: seq<Candidate>, canRead: Candidate -> bool, limit: nat, after: Option<Key>)
    requires Ranked(index) && limit > 0
    decreases |After(index, after)|
  {
    var window := After(index, after);
    var page := PageOf(window, canRead, limit);
    if page.next == None then Filter(canRead, Drop(window, CAP)) == []
    else
      PageAdvances(index, canRead, limit, after);
      Uncapped(index, canRead, limit, page.next)
  }

  /** Following the cursor yields the readable candidates in order, each once, and never anything
      else; it yields all of them exactly when no page ran into the cap with readable candidates
      behind it. */
  lemma {:induction false} FollowYieldsReadable(index: seq<Candidate>, canRead: Candidate -> bool, limit: nat,
                                                after: Option<Key>)
    requires Ranked(index) && limit > 0
    ensures Follow(index, canRead, limit, after) <= Filter(canRead, After(index, after))
    ensures Follow(index, canRead, limit, after) == Filter(canRead, After(index, after))
       <==> Uncapped(index, canRead, limit, after)
    decreases |After(index, after)|
  {
    var window := After(index, after);
    var page := PageOf(window, canRead, limit);
    if page.next == None {
      LastPage(window, canRead, limit);
    } else {
      PageAdvances(index, canRead, limit, after);
      var k := PageMoves(index, canRead, limit, after);
      FollowYieldsReadable(index, canRead, limit, page.next);
      SplitFilter(canRead, window, k + 1);
      PrefixBehind(page.data, Follow(index, canRead, limit, page.next), Filter(canRead, window[k + 1..]));
    }
  }

  lemma SplitFilter(p: Candidate -> bool, cs: seq<Candidate>, n: nat)
    requires n <= |cs|
    ensures Filter(p, cs) == Filter(p, cs[..n]) + Filter(p, cs[n..])
  {
    assert cs == cs[..n] + cs[n..];
    FilterConcat(p, cs[..n], cs[n..]);
  }

  lemma PrefixBehind(a: seq<Candidate>, b: seq<Candidate>, c: seq<Candidate>)
    requires b <= c
    ensures a + b <= a + c && (a + b == a + c <==> b == c)
  {
    assert |b| == |c| ==> b == c;
  }

  lemma CutFilter(p: Candidate -> bool, cs: seq<Candidate>, n: nat)
    ensures Filter(p, Take(cs, n)) <= Filter(p, cs)
    ensures Filter(p, Take(cs, n)) == Filter(p, cs) <==> Filter(p, Drop(cs, n)) == []
  {
    if |cs| > n {
      SplitFilter(p, cs, n);
      PrefixBehind(Filter(p, cs[..n]), [], Filter(p, cs[n..]));
      assert Filter(p, cs[..n]) + [] == Filter(p, cs[..n]);
    }
  }

  lemma LastPage(window: seq<Candidate>, canRead: Candidate -> bool, limit: nat)
    requires limit > 0 && PageOf(window, canRead, limit).next == None
    ensures PageOf(window, canRead, limit).data <= Filter(canRead, window)
    ensures PageOf(window, canRead, limit).data == Filter(canRead, window)
       <==> Filter(canRead, Drop(window, CAP)) == []
  {
    WholePage(window, canRead, limit);
    CutFilter(canRead, window, CAP);
  }

  lemma WholePage(window: seq<Candidate>, canRead: Candidate -> bool, limit: nat)
    requires limit > 0 && PageOf(window, canRead, limit).next == None
    ensures PageOf(window, canRead, limit).data == Filter(canRead, Take(window, CAP))
  {}

  // ----- The fallback -----

  function Insert(c: Candidate, cs: seq<Candidate>): seq<Candidate> {
    if cs == [] || !Before(cs[0].key, c.key) then [c] + cs else [cs[0]] + Insert(c, cs[1..])
  }

  function Sort(cs: seq<Candidate>): seq<Candidate> {
    if cs == [] then [] else Insert(cs[0], Sort(cs[1..]))
  }

  predicate Matches(state: Option<string>, site: Option<string>, c: Candidate) {
    (state == None || c.state == state.value) && (site == None || c.site == site.value)
  }

  /** Filter, sort, drop what is not after the cursor, authorise, slice. */
  function Fallback(exact: seq<Candidate>, state: Option<string>, site: Option<string>, canRead: Candidate -> bool,
                    limit: nat, after: Option<Key>, autocomplete: bool): Page
    requires limit > 0
  {
    var candidates := Filter(c => IsAfter(after, c), Sort(Filter(c => Matches(state, site, c), exact)));
    var readable := Filter(canRead, candidates);
    Page(Take(readable, limit),
         if !autocomplete && |readable| > limit then Some(readable[limit - 1].key) else None)
  }

  ghost predicate DistinctKeys(cs: seq<Candidate>) {
    forall i, j | 0 <= i < j < |cs| :: cs[i].key != cs[j].key
  }

  lemma RankedJoin(c: Candidate, cs: seq<Candidate>)
    requires Ranked(cs) && forall x | x in cs :: Before(c.key, x.key)
    ensures Ranked([c] + cs)
  {
  }

  lemma RankedInFront(c: Candidate, cs: seq<Candidate>)
    requires Ranked(cs) && forall x | x in cs :: x.key != c.key
    requires cs == [] || !Before(cs[0].key, c.key)
    ensures Ranked([c] + cs)
  {
    forall x | x in cs ensures Before(c.key, x.key) {
      assert x == cs[0] || Before(cs[0].key, x.key);
      assert cs[0] in cs;
    }
    RankedJoin(c, cs);
  }

  lemma {:induction false} InsertRanks(c: Candidate, cs: seq<Candidate>)
    requires Ranked(cs) && forall x | x in cs :: x.key != c.key
    ensures Ranked(Insert(c, cs))
    ensures forall x :: x in Insert(c, cs) <==> x == c || x in cs
    ensures |Insert(c, cs)| == |cs| + 1
  {
    if cs == [] || !Before(cs[0].key, c.key) {
      RankedInFront(c, cs);
    } else {
      var rest := Insert(c, cs[1..]);
      assert cs == [cs[0]] + cs[1..];
      InsertRanks(c, cs[1..]);
      assert forall x | x in rest :: Before(cs[0].key, x.key);
      RankedJoin(cs[0], rest);
    }
  }

  lemma {:induction false} SortRanks(cs: seq<Candidate>)
    requires DistinctKeys(cs)
    ensures Ranked(Sort(cs)) && |Sort(cs)| == |cs|
    ensures forall x :: x in Sort(cs) <==> x in cs
  {
    if cs != [] {
      SortRanks(cs[1..]);
      InsertRanks(cs[0], Sort(cs[1..]));
      assert cs == [cs[0]] + cs[1..];
    }
  }

  lemma {:induction false} FilterDistinct(p: Candidate -> bool, cs: seq<Candidate>)
    requires DistinctKeys(cs)
    ensures DistinctKeys(Filter(p, cs))
  {
    if cs != [] {
      var n := |cs| - 1;
      FilterDistinct(p, cs[..n]);
      FilterMembers(p, cs[..n]);
      var kept := Filter(p, cs[..n]);
      forall i | 0 <= i < |kept| ensures kept[i].key != cs[n].key {
        assert kept[i] in cs[..n];
      }
    }
  }

  /** The cap of the batched scan does not cut off what a page would still have room for. */
  predicate CapSpares(window: seq<Candidate>, canRead: Candidate -> bool, room: nat) {
    |Filter(canRead, Take(window, CAP))| >= room || Filter(canRead, Drop(window, CAP)) == []
  }

  lemma CutAndRest(window: seq<Candidate>, canRead: Candidate -> bool)
    ensures Filter(canRead, window) == Filter(canRead, Take(window, CAP)) + Filter(canRead, Drop(window, CAP))
  {
    assert window == Take(window, CAP) + Drop(window, CAP);
    FilterConcat(canRead, Take(window, CAP), Drop(window, CAP));
  }

  lemma PrefixTakes(a: seq<Candidate>, b: seq<Candidate>, limit: nat)
    requires limit > 0
    ensures Take(a + b, limit) == Take(a, limit) <==> |a| >= limit || b == []
    ensures |a| > limit ==> (a + b)[limit - 1] == a[limit - 1]
  {
    if b == [] {
      assert a + b == a;
    } else if |a| < limit {
      assert |Take(a + b, limit)| > |Take(a, limit)|;
    } else {
      assert Take(a + b, limit) == a[..limit];
      assert Take(a, limit) == a[..limit];
    }
  }

  lemma SortedMatches(exact: seq<Candidate>, state: Option<string>, site: Option<string>, x: Candidate)
    requires DistinctKeys(exact)
    ensures x in Sort(Filter(c => Matches(state, site, c), exact))
       <==> x in exact && (state.Some? ==> x.state == state.value) && (site.Some? ==> x.site == site.value)
  {
    FilterMembers(c => Matches(state, site, c), exact);
    FilterDistinct(c => Matches(state, site, c), exact);
    SortRanks(Filter(c => Matches(state, site, c), exact));
  }

  lemma AfterHas(index: seq<Candidate>, after: Option<Key>, x: Candidate)
    ensures x in After(index, after) <==> x in index && (after == None || Before(after.value, x.key))
  {
    FilterMembers(c => IsAfter(after, c), index);
  }

  lemma FallbackReads(exact: seq<Candidate>, state: Option<string>, site: Option<string>, canRead: Candidate -> bool,
                      limit: nat, after: Option<Key>, autocomplete: bool)
    requires limit > 0
    ensures Fallback(exact, state, site, canRead, limit, after, autocomplete).data
         == Take(Filter(canRead, After(Sort(Filter(c => Matches(state, site, c), exact)), after)), limit)
  {
  }

  /** The fallback draws on the candidates of the state and the site that are asked for. */
  lemma FallbackDraws(exact: seq<Candidate>, state: Option<string>, site: Option<string>, canRead: Candidate -> bool,
                      limit: nat, after: Option<Key>, autocomplete: bool, x: Candidate)
    requires limit > 0 && DistinctKeys(exact)
    ensures var data := Fallback(exact, state, site, canRead, limit, after, autocomplete).data;
            var fits := && x in exact && canRead(x) && (after == None || Before(after.value, x.key))
                        && (state.Some? ==> x.state == state.value) && (site.Some? ==> x.site == site.value);
            (x in data ==> fits) && (fits && |data| < limit ==> x in data)
  {
    var index := Sort(Filter(c => Matches(state, site, c), exact));
    FallbackReads(exact, state, site, canRead, limit, after, autocomplete);
    SortedMatches(exact, state, site, x);
    AfterHas(index, after, x);
    FilterMembers(canRead, After(index, after));
  }

  /** On the same candidates the fallback gives the data of the batched scan exactly if the cap
      cuts off nothing the page has room for, and the same cursor exactly if it cuts off nothing
      that would come next either; autocompletion never continues. */
  lemma FallbackIsQuery(exact: seq<Candidate>, state: Option<string>, site: Option<string>, canRead: Candidate -> bool,
                        limit: nat, after: Option<Key>, autocomplete: bool)
    requires limit > 0 && DistinctKeys(exact)
    ensures var index := Sort(Filter(c => Matches(state, site, c), exact));
            var page := Fallback(exact, state, site, canRead, limit, after, autocomplete);
            && Ranked(index)
            && (page.data == PageOf(After(index, after), canRead, limit).data
                <==> CapSpares(After(index, after), canRead, limit))
            && (autocomplete ==> page.next == None)
            && (!autocomplete ==> (page == PageOf(After(index, after), canRead, limit)
                                   <==> CapSpares(After(index, after), canRead, limit + 1)))
  {
    var matching := Filter(c => Matches(state, site, c), exact);
    FilterDistinct(c => Matches(state, site, c), exact);
    SortRanks(matching);
    var window := After(Sort(matching), after);
    CutAndRest(window, canRead);
    PrefixTakes(Filter(canRead, Take(window, CAP)), Filter(canRead, Drop(window, CAP)), limit);
  }
}
