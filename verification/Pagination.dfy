/** Reading a paginated GitLab list: all of it or an error, and the search that stops early.

    A server answers the k-th request, for a page, with items and what it says about the
    next page; it may answer differently every time. */
module Pagination {
  import opened Common

  const MAX_PAGES := 50

  datatype Next = NoNext | Page(number: int) | Malformed

  datatype Response<T> = Failed | Items(items: seq<T>, next: Next)

  type Server<T> = (nat, int) -> Response<T>

  datatype ReadError = Upstream | BadNext | TooManyPages | Undecodable

  /** The page to go to, 0 for none: it must be further on. */
  function NextPage(next: Next, current: int): Result<int, ReadError> {
    match next
    case NoNext => Ok(0)
    case Malformed => Err(BadNext)
    case Page(n) => if n <= current then Err(BadNext) else Ok(n)
  }

  // ---- chains of pages ----

  /** The page the next request is for, after those of `asked`: page 1, and then what the
      last answer named. */
  function Ahead<T>(server: Server<T>, asked: seq<int>): Option<int> {
    if asked == [] then Some(1)
    else
      match server(|asked| - 1, asked[|asked| - 1])
      case Failed => None
      case Items(_, next) =>
        match NextPage(next, asked[|asked| - 1])
        case Err(_) => None
        case Ok(page) => if page == 0 then None else Some(page)
  }

  /** The page numbers of a read: each the one that lies ahead of those before it. */
  predicate Follows<T>(server: Server<T>, asked: seq<int>) {
    asked == [] || (Follows(server, asked[..|asked| - 1]) && Ahead(server, asked[..|asked| - 1]) == Some(asked[|asked| - 1]))
  }

  /** The last answer says there is no next page. */
  predicate Ends<T>(server: Server<T>, asked: seq<int>) {
    && asked != [] && server(|asked| - 1, asked[|asked| - 1]).Items?
    && NextPage(server(|asked| - 1, asked[|asked| - 1]).next, asked[|asked| - 1]) == Ok(0)
  }

  function ItemsOf<T>(response: Response<T>): seq<T> {
    if response.Items? then response.items else []
  }

  function Gathered<T>(server: Server<T>, asked: seq<int>): seq<T> {
    if asked == [] then []
    else Gathered(server, asked[..|asked| - 1]) + ItemsOf(server(|asked| - 1, asked[|asked| - 1]))
  }

  lemma {:induction false} FollowsFront<T>(server: Server<T>, asked: seq<int>, n: nat)
    requires Follows(server, asked) && n < |asked|
    ensures Follows(server, asked[..n]) && Ahead(server, asked[..n]) == Some(asked[n])
    decreases |asked|
  {
    var front := asked[..|asked| - 1];
    if n < |front| {
      FollowsFront(server, front, n);
      assert front[..n] == asked[..n];
    }
  }

  /** The page numbers only go up. */
  lemma {:induction false} PagesGoUp<T>(server: Server<T>, asked: seq<int>)
    requires Follows(server, asked)
    ensures forall i :: 0 <= i < |asked| ==> asked[i] >= 1
    ensures forall i, j :: 0 <= i < j < |asked| ==> asked[i] < asked[j]
    ensures Ahead(server, asked).Some? ==> Ahead(server, asked).value >= 1 && forall i :: 0 <= i < |asked| ==> asked[i] < Ahead(server, asked).value
    decreases |asked|
  {
    if asked != [] {
      PagesGoUp(server, asked[..|asked| - 1]);
    }
  }

  /** What the server advertises is one chain: two ways of following it agree as far as they
      both go. */
  lemma {:induction false} OneChain<T>(server: Server<T>, a: seq<int>, b: seq<int>)
    requires Follows(server, a) && Follows(server, b) && |a| <= |b|
    ensures a == b[..|a|]
    decreases |a|
  {
    if a != [] {
      var n := |a| - 1;
      OneChain(server, a[..n], b);
      FollowsFront(server, b, n);
      assert a == a[..n] + [a[n]] && b[..|a|] == b[..n] + [b[n]];
    }
  }

  /** A chain that cannot be followed on from `a` does not end anywhere else. */
  lemma NoOtherEnd<T>(server: Server<T>, a: seq<int>, b: seq<int>)
    requires Follows(server, a) && Ahead(server, a).None? && Follows(server, b) && Ends(server, b)
    ensures a == b
  {
    if |b| < |a| {
      OneChain(server, b, a);
      FollowsFront(server, a, |b|);
    } else {
      OneChain(server, a, b);
      if |a| < |b| {
        FollowsFront(server, b, |a|);
      } else {
        assert b[..|a|] == b;
      }
    }
  }

  /** A chain that goes on past `a` ends later, if it ends. */
  lemma EndsLater<T>(server: Server<T>, a: seq<int>, b: seq<int>)
    requires Follows(server, a) && Ahead(server, a).Some? && Follows(server, b) && Ends(server, b)
    ensures |b| > |a|
  {
    if |b| <= |a| {
      assert |b| == |a| ==> a[..|b|] == a;
      OneChain(server, b, a);
      if |b| < |a| {
        FollowsFront(server, a, |b|);
      }
    }
  }

  /** No way of following the chain ends within the limit. */
  ghost predicate OutOfReach<T>(server: Server<T>) {
    forall b :: Follows(server, b) && Ends(server, b) ==> |b| > MAX_PAGES
  }

  lemma DeadEnd<T>(server: Server<T>, asked: seq<int>)
    requires Follows(server, asked) && Ahead(server, asked).None? && !Ends(server, asked)
    ensures OutOfReach(server)
  {
    forall b ensures !(Follows(server, b) && Ends(server, b)) {
      if Follows(server, b) && Ends(server, b) {
        NoOtherEnd(server, asked, b);
      }
    }
  }

  lemma TooFar<T>(server: Server<T>, asked: seq<int>)
    requires Follows(server, asked) && Ahead(server, asked).Some? && |asked| == MAX_PAGES
    ensures OutOfReach(server)
  {
    forall b | Follows(server, b) && Ends(server, b) ensures |b| > MAX_PAGES {
      EndsLater(server, asked, b);
    }
  }

  /** One more request. */
  lemma OneMoreAsked<T>(server: Server<T>, asked: seq<int>, page: int)
    requires Follows(server, asked) && Ahead(server, asked) == Some(page)
    ensures Follows(server, asked + [page]) && page >= 1
    ensures Gathered(server, asked + [page]) == Gathered(server, asked) + ItemsOf(server(|asked|, page))
  {
    assert (asked + [page])[..|asked|] == asked;
    PagesGoUp(server, asked);
  }

  // ---- in terms of the responses ----

  /** Page 1 first, and then each time the page that the response before names, which is
      further on. */
  ghost predicate Chain<T>(server: Server<T>, asked: seq<int>) {
    && (asked != [] ==> asked[0] == 1)
    && forall i :: 0 <= i < |asked| - 1 ==>
         && server(i, asked[i]).Items? && server(i, asked[i]).next == Page(asked[i + 1]) && asked[i] < asked[i + 1]
  }

  function LastOf<T>(server: Server<T>, asked: seq<int>): Response<T>
    requires asked != []
  {
    server(|asked| - 1, asked[|asked| - 1])
  }

  /** The last response says that there is nothing more. */
  predicate Complete<T>(server: Server<T>, asked: seq<int>) {
    asked != [] && LastOf(server, asked).Items? && LastOf(server, asked).next == NoNext
  }

  /** The last response cannot be gone on from: it failed, its next page cannot be read, or
      it is not further on; or there have been fifty. */
  predicate Stuck<T>(server: Server<T>, asked: seq<int>) {
    && asked != []
    && var last := LastOf(server, asked);
       || last.Failed? || last.next.Malformed?
       || (last.next.Page? && (last.next.number <= asked[|asked| - 1] || |asked| == 50))
  }

  lemma {:induction false} FollowsIsChain<T>(server: Server<T>, asked: seq<int>)
    ensures Follows(server, asked) <==> Chain(server, asked)
    decreases |asked|
  {
    if asked != [] {
      var n := |asked| - 1;
      var front := asked[..n];
      FollowsIsChain(server, front);
      PagesAreAtLeastOne(server, front);
      if n > 0 {
        assert front[n - 1] == asked[n - 1];
        if Chain(server, asked) {
          assert server(n - 1, asked[n - 1]).next == Page(asked[n - 1 + 1]);
        }
      }
    }
  }

  lemma {:induction false} PagesAreAtLeastOne<T>(server: Server<T>, asked: seq<int>)
    ensures Chain(server, asked) ==> forall i :: 0 <= i < |asked| ==> asked[i] >= 1
    decreases |asked|
  {
    if asked != [] && Chain(server, asked) {
      var n := |asked| - 1;
      assert Chain(server, asked[..n]);
      PagesAreAtLeastOne(server, asked[..n]);
      if n > 0 {
        assert asked[..n][n - 1] == asked[n - 1] && asked[n - 1] < asked[n - 1 + 1];
      }
    }
  }

  /** A read that follows the server ends, is stuck, or goes on. */
  lemma EndsIsComplete<T>(server: Server<T>, asked: seq<int>)
    requires Follows(server, asked) && asked != []
    ensures Ends(server, asked) <==> Complete(server, asked)
    ensures !Complete(server, asked) && (Ahead(server, asked).None? || |asked| == 50) ==> Stuck(server, asked)
    ensures Stuck(server, asked) ==> !Complete(server, asked)
  {
    PagesGoUp(server, asked);
  }

  lemma InResponses<T>(server: Server<T>, asked: seq<int>)
    requires Follows(server, asked) && asked != []
    ensures Chain(server, asked)
    ensures Ends(server, asked) <==> Complete(server, asked)
    ensures !Complete(server, asked) && (Ahead(server, asked).None? || |asked| == 50) ==> Stuck(server, asked)
    ensures Stuck(server, asked) ==> !Complete(server, asked)
  {
    FollowsIsChain(server, asked);
    EndsIsComplete(server, asked);
  }

  /** What has been gathered is the items of every response, in the order of asking. */
  lemma {:induction false} GatheredAt<T>(server: Server<T>, asked: seq<int>, i: nat)
    requires i < |asked| && server(i, asked[i]).Items?
    ensures Gathered(server, asked[..i]) + server(i, asked[i]).items <= Gathered(server, asked)
    ensures i == |asked| - 1 ==> Gathered(server, asked) == Gathered(server, asked[..i]) + server(i, asked[i]).items
    decreases |asked|
  {
    var front := asked[..|asked| - 1];
    if i < |front| {
      GatheredAt(server, front, i);
      assert front[..i] == asked[..i];
    }
  }

  // ---- reading everything ----

  /** What one answer says about the rest: an error, the end, or the page ahead. */
  lemma AfterAnswer<T>(server: Server<T>, asked: seq<int>, page: int)
    requires page >= 1
    ensures var all := asked + [page];
            var response := server(|asked|, page);
            && (response.Failed? ==> Ahead(server, all).None? && !Ends(server, all))
            && (response.Items? ==>
                  && (NextPage(response.next, page).Err? ==> Ahead(server, all).None? && !Ends(server, all))
                  && (NextPage(response.next, page) == Ok(0) ==> Ends(server, all))
                  && (NextPage(response.next, page).Ok? && NextPage(response.next, page).value != 0 ==>
                        Ahead(server, all) == Some(NextPage(response.next, page).value)))
  {
  }

  /** Every item of the chain, or an error: never part of it. An error only when the chain
      does not end within the limit, or when the caller's type does not take all the items
      there are. */
  method Pages<T, U>(server: Server<T>, decode: seq<T> -> Option<U>) returns (r: Result<U, ReadError>, asked: seq<int>)
    ensures Follows(server, asked) && 1 <= |asked| <= MAX_PAGES
    ensures r.Ok? <==> Ends(server, asked) && decode(Gathered(server, asked)).Some?
    ensures r.Ok? ==> decode(Gathered(server, asked)) == Some(r.value)
    ensures r.Err? && !Ends(server, asked) ==> OutOfReach(server)
    ensures Chain(server, asked) && |asked| <= 50
    ensures r.Ok? ==> Complete(server, asked)
    ensures r.Err? ==> Stuck(server, asked) || (Complete(server, asked) && decode(Gathered(server, asked)).None?)
  {
    var page := 1;
    var all: seq<T> := [];
    asked := [];
    var pages := 0;
    while pages < MAX_PAGES
      invariant 0 <= pages == |asked| <= MAX_PAGES
      invariant Follows(server, asked) && Ahead(server, asked) == Some(page)
      invariant all == Gathered(server, asked)
    {
      OneMoreAsked(server, asked, page);
      AfterAnswer(server, asked, page);
      var response := server(pages, page);
      asked := asked + [page];
      if response.Failed? {
        DeadEnd(server, asked);
        InResponses(server, asked);
        return Err(Upstream), asked;
      }
      all := all + response.items;
      var next := NextPage(response.next, page);
      if next.Err? {
        DeadEnd(server, asked);
        InResponses(server, asked);
        return Err(next.error), asked;
      }
      if next.value == 0 {
        InResponses(server, asked);
        var typed := decode(all);
        return if typed.Some? then Ok(typed.value) else Err(Undecodable), asked;
      }
      page := next.value;
      pages := pages + 1;
    }
    TooFar(server, asked);
    InResponses(server, asked);
    r := Err(TooManyPages);
  }

  // ---- searching ----

  /** `breaks` is how many line breaks the snippet holds. */
  datatype Hit = Hit(path: string, snippet: string, commit: string, startLine: int, breaks: nat)

  datatype QueryResult = QueryResult(path: string, snippet: string, commit: string, lineStart: int, lineEnd: int)

  function Shown(hit: Hit): QueryResult {
    var start := Max(1, hit.startLine);
    QueryResult(hit.path, hit.snippet, hit.commit, start, start + hit.breaks)
  }

  function Paths(results: seq<QueryResult>): set<string> {
    set r | r in results :: r.path
  }

  /** The first hit of every file, in the order the files first come up. */
  function Firsts(hits: seq<Hit>): seq<QueryResult> {
    if hits == [] then []
    else
      var front, last := Firsts(hits[..|hits| - 1]), hits[|hits| - 1];
      if last.path == "" || last.path in Paths(front) then front else front + [Shown(last)]
  }

  /** Where a path first comes up. */
  function FirstOf(hits: seq<Hit>, path: string): nat {
    if hits == [] || hits[0].path == path then 0 else 1 + FirstOf(hits[1..], path)
  }

  function Take<T>(s: seq<T>, n: nat): seq<T> {
    if |s| <= n then s else s[..n]
  }

  function Limit(limit: int): nat {
    if limit < 1 || limit > 50 then 8 else limit
  }

  lemma FirstsSnoc(hits: seq<Hit>, hit: Hit)
    ensures Firsts(hits + [hit]) ==
      if hit.path == "" || hit.path in Paths(Firsts(hits)) then Firsts(hits) else Firsts(hits) + [Shown(hit)]
  {
    assert (hits + [hit])[..|hits|] == hits;
  }

  lemma {:induction false} FirstsGrow(hits: seq<Hit>, more: seq<Hit>)
    ensures Firsts(hits) <= Firsts(hits + more)
  {
    if more == [] {
      assert hits + more == hits;
    } else {
      var n := |more| - 1;
      FirstsGrow(hits, more[..n]);
      assert hits + more == (hits + more[..n]) + [more[n]];
      FirstsSnoc(hits + more[..n], more[n]);
    }
  }

  /** One hit: kept when its file is new, and the search goes on while there is room. */
  method Visit(hit: Hit, limit: nat, out: seq<QueryResult>, seen: set<string>, ghost hits: seq<Hit>)
    returns (more: seq<QueryResult>, known: set<string>, on: bool)
    requires out == Firsts(hits) && seen == Paths(out) && |out| < limit
    ensures more == Firsts(hits + [hit]) && known == Paths(more) && |more| <= limit
    ensures on <==> |more| < limit
  {
    FirstsSnoc(hits, hit);
    if hit.path == "" || hit.path in seen {
      return out, seen, true;
    }
    more, known := out + [Shown(hit)], seen + {hit.path};
    PathsSnoc(out, Shown(hit));
    on := |more| < limit;
  }

  lemma PathsSnoc(results: seq<QueryResult>, result: QueryResult)
    ensures Paths(results + [result]) == Paths(results) + {result.path}
  {
    assert forall r :: r in results + [result] <==> r in results || r == result;
  }

  /** Once there are enough, what comes after does not matter. */
  lemma EnoughIsEnough(hits: seq<Hit>, more: seq<Hit>, limit: nat)
    requires |Firsts(hits)| == limit
    ensures Take(Firsts(hits + more), limit) == Firsts(hits)
  {
    FirstsGrow(hits, more);
  }

  /** The hits of one page, one after the other, until there is no more room. */
  method VisitPage(items: seq<Hit>, limit: nat, out: seq<QueryResult>, seen: set<string>, ghost hits: seq<Hit>)
    returns (more: seq<QueryResult>, known: set<string>, on: bool)
    requires out == Firsts(hits) && seen == Paths(out) && |out| < limit
    ensures more == Take(Firsts(hits + items), limit) && known == Paths(more)
    ensures on <==> |more| < limit
  {
    more, known, on := out, seen, true;
    ghost var visited := hits;
    var i := 0;
    while i < |items|
      invariant 0 <= i <= |items|
      invariant visited + items[i..] == hits + items
      invariant more == Firsts(visited) && known == Paths(more) && |more| < limit && on
    {
      ghost var next := visited + [items[i]];
      assert next + items[i + 1..] == hits + items by {
        assert items[i..] == [items[i]] + items[i + 1..];
      }
      more, known, on := Visit(items[i], limit, more, known, visited);
      visited := next;
      i := i + 1;
      if !on {
        EnoughIsEnough(visited, items[i..], limit);
        return;
      }
    }
    assert visited + [] == visited;
  }

  /** A file's result is its first hit: path, snippet and commit as they are, from the line of
      the hit, but at least 1, down by as many lines as the snippet breaks. */
  ghost predicate IsAHit(result: QueryResult, hits: seq<Hit>) {
    exists k :: 0 <= k < |hits| && ShowsHit(result, hits[k]) && forall j :: 0 <= j < k ==> hits[j].path != result.path
  }

  predicate ShowsHit(result: QueryResult, hit: Hit) {
    && result.path == hit.path != "" && result.snippet == hit.snippet && result.commit == hit.commit
    && result.lineStart >= 1 && (hit.startLine >= 1 ==> result.lineStart == hit.startLine) && (hit.startLine < 1 ==> result.lineStart == 1)
    && result.lineEnd - result.lineStart == hit.breaks
  }

  lemma {:induction false} FirstsAreHits(hits: seq<Hit>)
    ensures forall i :: 0 <= i < |Firsts(hits)| ==> IsAHit(Firsts(hits)[i], hits)
  {
    if hits != [] {
      var n := |hits| - 1;
      var front, last := hits[..n], hits[n];
      FirstsAreHits(front);
      assert hits == front + [last];
      FirstsSnoc(front, last);
      forall i | 0 <= i < |Firsts(front)| ensures IsAHit(Firsts(front)[i], hits) {
        var k :| 0 <= k < |front| && ShowsHit(Firsts(front)[i], front[k]) && forall j :: 0 <= j < k ==> front[j].path != Firsts(front)[i].path;
        assert hits[k] == front[k] && forall j :: 0 <= j < k ==> hits[j] == front[j];
      }
      if last.path != "" && last.path !in Paths(Firsts(front)) {
        NewFileIsAHit(front, last);
      }
    }
  }

  lemma NewFileIsAHit(front: seq<Hit>, last: Hit)
    requires last.path != "" && last.path !in Paths(Firsts(front))
    ensures IsAHit(Shown(last), front + [last])
  {
    var all := front + [last];
    EveryFileOnce(front, last.path);
    assert ShowsHit(Shown(last), all[|front|]);
    forall j | 0 <= j < |front| ensures all[j].path != last.path {
      assert front[j] == all[j];
    }
  }

  lemma ResultsAreHits(hits: seq<Hit>, most: nat)
    ensures forall i :: 0 <= i < |Take(Firsts(hits), most)| ==> IsAHit(Take(Firsts(hits), most)[i], hits)
    ensures forall i :: 0 <= i < |Firsts(hits)| ==> IsAHit(Firsts(hits)[i], hits)
  {
    FirstsAreHits(hits);
  }

  /** The pages, one after the other, until there are enough files. */
  method SearchPages(server: Server<Hit>, most: nat) returns (r: Option<seq<QueryResult>>, asked: seq<int>)
    requires most > 0
    ensures 1 <= |asked| <= MAX_PAGES && Follows(server, asked)
    ensures r.Some? ==> r.value == Take(Firsts(Gathered(server, asked)), most)
    ensures r.Some? && |r.value| < most ==> Ends(server, asked)
    ensures r.None? ==> |Firsts(Gathered(server, asked))| < most && OutOfReach(server)
    ensures r.None? ==> !Ends(server, asked) && (Ahead(server, asked).None? || |asked| == 50)
  {
    asked := [];
    var page := 1;
    var out: seq<QueryResult>, seen: set<string>, on := [], {}, true;
    var pages := 0;
    while pages < MAX_PAGES
      invariant 0 <= pages == |asked| <= MAX_PAGES
      invariant Follows(server, asked) && Ahead(server, asked) == Some(page)
      invariant out == Firsts(Gathered(server, asked)) && seen == Paths(out) && |out| < most
    {
      OneMoreAsked(server, asked, page);
      AfterAnswer(server, asked, page);
      var response := server(pages, page);
      ghost var hits := Gathered(server, asked);
      asked := asked + [page];
      if response.Failed? {
        assert hits + [] == hits;
        DeadEnd(server, asked);
        return None, asked;
      }
      out, seen, on := VisitPage(response.items, most, out, seen, hits);
      if !on {
        return Some(out), asked;
      }
      var next := NextPage(response.next, page);
      if next.Err? {
        DeadEnd(server, asked);
        return None, asked;
      }
      if next.value == 0 {
        return Some(out), asked;
      }
      page := next.value;
      pages := pages + 1;
    }
    TooFar(server, asked);
    r := None;
  }

  /** The first `limit` files of the pages read, each by its first hit; short of the limit
      only when the whole chain has been read, and an error only when the chain cannot be
      followed to its end and did not give enough on the way. */
  method SearchQuery(server: Server<Hit>, query: string, limit: int) returns (r: Option<seq<QueryResult>>, asked: seq<int>)
    ensures query == "" ==> r.None? && asked == []
    ensures query != "" ==> 1 <= |asked| <= MAX_PAGES && Follows(server, asked)
    ensures r.Some? ==> r.value == Take(Firsts(Gathered(server, asked)), Limit(limit))
    ensures r.Some? && |r.value| < Limit(limit) ==> Ends(server, asked)
    ensures r.None? && query != "" ==> |Firsts(Gathered(server, asked))| < Limit(limit) && OutOfReach(server)
    ensures query != "" ==> Chain(server, asked) && |asked| <= 50
    ensures r.Some? ==> |r.value| <= (if 1 <= limit <= 50 then limit else 8)
    ensures r.Some? && |r.value| < (if 1 <= limit <= 50 then limit else 8) ==> Complete(server, asked)
    ensures r.Some? ==> forall i :: 0 <= i < |r.value| ==> IsAHit(r.value[i], Gathered(server, asked))
    ensures r.None? && query != "" ==> Stuck(server, asked)
  {
    if query == "" {
      return None, [];
    }
    r, asked := SearchPages(server, Limit(limit));
    InResponses(server, asked);
    ResultsAreHits(Gathered(server, asked), Limit(limit));
  }

  // ---- what "first" means ----

  ghost predicate Occurs(hits: seq<Hit>, path: string) {
    exists k :: 0 <= k < |hits| && hits[k].path == path
  }

  lemma OccursSnoc(hits: seq<Hit>, hit: Hit, path: string)
    ensures Occurs(hits + [hit], path) <==> Occurs(hits, path) || path == hit.path
  {
    var all := hits + [hit];
    if Occurs(hits, path) {
      var k :| 0 <= k < |hits| && hits[k].path == path;
      assert all[k].path == path;
    }
    if path == hit.path {
      assert all[|hits|].path == path;
    }
  }

  /** Exactly the files with a hit are among the results. */
  lemma {:induction false} EveryFileOnce(hits: seq<Hit>, path: string)
    ensures path in Paths(Firsts(hits)) <==> path != "" && Occurs(hits, path)
  {
    if hits != [] {
      var n := |hits| - 1;
      EveryFileOnce(hits[..n], path);
      assert hits == hits[..n] + [hits[n]];
      OccursSnoc(hits[..n], hits[n], path);
      FirstsSnoc(hits[..n], hits[n]);
      PathsSnoc(Firsts(hits[..n]), Shown(hits[n]));
    }
  }

  ghost predicate InFirstOrder(hits: seq<Hit>, results: seq<QueryResult>) {
    && (forall i :: 0 <= i < |results| ==>
          FirstOf(hits, results[i].path) < |hits| && results[i] == Shown(hits[FirstOf(hits, results[i].path)]))
    && (forall i, j :: 0 <= i < j < |results| ==> FirstOf(hits, results[i].path) < FirstOf(hits, results[j].path))
  }

  /** Each result is the very first hit of its file, and they come in the order of those
      first hits. */
  lemma {:induction false} FirstsAreFirst(hits: seq<Hit>)
    ensures InFirstOrder(hits, Firsts(hits))
  {
    if hits != [] {
      var n := |hits| - 1;
      var front, last := hits[..n], hits[n];
      FirstsAreFirst(front);
      assert hits == front + [last];
      FirstsSnoc(front, last);
      StillInOrder(hits, n, Firsts(front));
      if last.path != "" && last.path !in Paths(Firsts(front)) {
        FirstOfItsFile(hits, front, last);
        OneMoreInOrder(hits, Firsts(front), last);
      }
    }
  }

  lemma OneMoreInOrder(hits: seq<Hit>, results: seq<QueryResult>, last: Hit)
    requires InFirstOrder(hits, results) && hits != [] && hits[|hits| - 1] == last
    requires FirstOf(hits, last.path) == |hits| - 1
    requires forall i :: 0 <= i < |results| ==> FirstOf(hits, results[i].path) < |hits| - 1
    ensures InFirstOrder(hits, results + [Shown(last)])
  {
    var more := results + [Shown(last)];
    forall i | 0 <= i < |more|
      ensures FirstOf(hits, more[i].path) < |hits| && more[i] == Shown(hits[FirstOf(hits, more[i].path)])
      ensures i < |results| ==> FirstOf(hits, more[i].path) < FirstOf(hits, more[|results|].path)
    {
      assert i < |results| ==> more[i] == results[i];
    }
  }

  /** A file that is not among the results has not come up before. */
  lemma FirstOfItsFile(hits: seq<Hit>, front: seq<Hit>, last: Hit)
    requires hits == front + [last] && last.path != "" && last.path !in Paths(Firsts(front))
    ensures FirstOf(hits, last.path) == |front|
  {
    EveryFileOnce(front, last.path);
    forall k | 0 <= k < |front| ensures hits[k].path != last.path {
      assert front[k] == hits[k];
    }
    FirstOfNew(hits, last.path, |front|);
  }

  lemma StillInOrder(hits: seq<Hit>, n: nat, results: seq<QueryResult>)
    requires n <= |hits| && InFirstOrder(hits[..n], results)
    ensures InFirstOrder(hits, results)
    ensures forall i :: 0 <= i < |results| ==> FirstOf(hits, results[i].path) < n
  {
    forall i | 0 <= i < |results|
      ensures FirstOf(hits, results[i].path) == FirstOf(hits[..n], results[i].path) < n
    {
      FirstOfFront(hits, results[i].path, n);
    }
  }

  lemma {:induction false} FirstOfFront(hits: seq<Hit>, path: string, n: nat)
    requires n <= |hits| && FirstOf(hits[..n], path) < n
    ensures FirstOf(hits, path) == FirstOf(hits[..n], path)
  {
    if hits[0].path != path {
      assert hits[..n][1..] == hits[1..][..n - 1];
      FirstOfFront(hits[1..], path, n - 1);
    }
  }

  lemma {:induction false} FirstOfNew(hits: seq<Hit>, path: string, n: nat)
    requires n < |hits| && hits[n].path == path && forall k :: 0 <= k < n ==> hits[k].path != path
    ensures FirstOf(hits, path) == n
  {
    if n > 0 {
      FirstOfNew(hits[1..], path, n - 1);
    }
  }
}
