/** The gateway's route table: ranges of message ids, sorted by their end and searched by bisection. */
module RouteTable {
  import opened Wrappers

  datatype Route = Route(begin: nat, end: nat, topic: string)

  predicate Contains(r: Route, id: nat) {
    r.begin <= id <= r.end
  }

  predicate Apart(a: Route, b: Route) {
    a.end < b.begin || b.end < a.begin
  }

  ghost predicate WellFormed(rs: seq<Route>) {
    forall i | 0 <= i < |rs| :: rs[i].begin <= rs[i].end
  }

  ghost predicate AllApart(rs: seq<Route>) {
    forall i, j | 0 <= i < j < |rs| :: Apart(rs[i], rs[j])
  }

  ghost predicate SortedByEnd(rs: seq<Route>) {
    forall i, j | 0 <= i < j < |rs| :: rs[i].end <= rs[j].end
  }

  /** What the library sort promises: some arrangement of the same routes, ordered by end; ties in any order. */
  ghost predicate Arranges(sorted: seq<Route>, routes: seq<Route>) {
    SortedByEnd(sorted) && multiset(sorted) == multiset(routes)
  }

  /** The reference lookup: the first listed route containing the id. */
  function Scan(rs: seq<Route>, id: nat): Option<string> {
    if rs == [] then None
    else if Contains(rs[0], id) then Some(rs[0].topic)
    else Scan(rs[1..], id)
  }

  /** `build`, given the sort's result: accepts exactly well-formed, pairwise disjoint ranges in any input order. */
  method Build(routes: seq<Route>, sorted: seq<Route>) returns (table: Option<seq<Route>>)
    requires Arranges(sorted, routes)
    ensures table.Some? <==> WellFormed(routes) && AllApart(routes)
    ensures table.Some? ==> table.value == sorted
  {
    var i := 0;
    while i < |routes|
      invariant 0 <= i <= |routes|
      invariant WellFormed(routes[..i])
    {
      if routes[i].begin > routes[i].end {
        return None;
      }
      i := i + 1;
    }
    assert routes[..i] == routes;
    WellFormedPermutes(routes, sorted);
    var ok := Validate(sorted);
    if ok {
      AllApartPermutes(sorted, routes);
      return Some(sorted);
    }
    if AllApart(routes) {
      AllApartPermutes(routes, sorted);
    }
    return None;
  }

  /** Neighbours suffice: in a sorted table no overlap between neighbours means no overlap at all. */
  method Validate(rs: seq<Route>) returns (ok: bool)
    requires SortedByEnd(rs) && WellFormed(rs)
    ensures ok <==> AllApart(rs)
  {
    var i := 1;
    while i < |rs|
      invariant 1 <= i && (i <= |rs| || rs == [])
      invariant forall k | 1 <= k < i && k < |rs| :: rs[k - 1].end < rs[k].begin
    {
      if rs[i - 1].end >= rs[i].begin {
        assert !Apart(rs[i - 1], rs[i]);
        return false;
      }
      i := i + 1;
    }
    forall j, k | 0 <= j < k < |rs| ensures Apart(rs[j], rs[k]) {
      assert j < k - 1 ==> rs[j].end <= rs[k - 1].end;
      assert rs[k - 1].end < rs[k].begin;
    }
    return true;
  }

  /** `resolve` on a built table agrees with scanning the original routes, whatever order they came in. */
  method Resolve(table: seq<Route>, id: nat, ghost routes: seq<Route>) returns (topic: Option<string>)
    requires Arranges(table, routes) && WellFormed(routes) && AllApart(routes)
    ensures topic == Scan(routes, id)
    ensures forall i | 0 <= i < |routes| && routes[i].begin <= id <= routes[i].end :: topic == Some(routes[i].topic)
    ensures topic.Some? ==> exists i | 0 <= i < |routes| :: routes[i].begin <= id <= routes[i].end
  {
    WellFormedPermutes(routes, table);
    AllApartPermutes(routes, table);
    var k := LowerBound(table, id);
    ScanPermutes(table, routes, id);
    ScanMeans(routes, id);
    if k < |table| && id >= table[k].begin && id <= table[k].end {
      ScanFinds(table, k, id);
      return Some(table[k].topic);
    }
    forall j | 0 <= j < |table| ensures !Contains(table[j], id) {
      assert j > k ==> table[k].end < table[j].begin by {
        if j > k {
          assert Apart(table[k], table[j]);
          assert table[k].end <= table[j].end;
        }
      }
    }
    ScanMisses(table, id);
    return None;
  }

  /** Among disjoint ranges the scan finds the one that contains the id, and nothing otherwise. */
  lemma ScanMeans(rs: seq<Route>, id: nat)
    requires AllApart(rs)
    ensures forall i | 0 <= i < |rs| && rs[i].begin <= id <= rs[i].end :: Scan(rs, id) == Some(rs[i].topic)
    ensures Scan(rs, id).Some? ==> exists i | 0 <= i < |rs| :: rs[i].begin <= id <= rs[i].end
  {
    forall i | 0 <= i < |rs| && rs[i].begin <= id <= rs[i].end ensures Scan(rs, id) == Some(rs[i].topic) {
      ScanFinds(rs, i, id);
    }
    if forall i | 0 <= i < |rs| :: !Contains(rs[i], id) {
      ScanMisses(rs, id);
    } else {
      var i :| 0 <= i < |rs| && Contains(rs[i], id);
      assert rs[i].begin <= id <= rs[i].end;
    }
  }

  /** The first position whose end is at or above the id. */
  method LowerBound(rs: seq<Route>, id: nat) returns (k: nat)
    requires SortedByEnd(rs)
    ensures k <= |rs|
    ensures forall j | 0 <= j < k :: rs[j].end < id
    ensures forall j | k <= j < |rs| :: rs[j].end >= id
  {
    k := 0;
    var len := |rs|;
    while len > 0
      invariant 0 <= len && k + len <= |rs|
      invariant forall j | 0 <= j < k :: rs[j].end < id
      invariant forall j | k + len <= j < |rs| :: rs[j].end >= id
    {
      var half := len / 2;
      if rs[k + half].end < id {
        k, len := k + half + 1, len - (half + 1);
      } else {
        len := half;
      }
    }
  }

  // ---- Order does not matter ----

  lemma InBoth(a: seq<Route>, b: seq<Route>, r: Route)
    requires multiset(a) == multiset(b)
    ensures r in a <==> r in b
  {
    assert r in a <==> r in multiset(a);
    assert r in b <==> r in multiset(b);
  }

  lemma WellFormedPermutes(a: seq<Route>, b: seq<Route>)
    requires multiset(a) == multiset(b) && WellFormed(a)
    ensures WellFormed(b)
  {
    forall i | 0 <= i < |b| ensures b[i].begin <= b[i].end {
      InBoth(a, b, b[i]);
    }
  }

  lemma CountTwice(s: seq<Route>, i: nat, j: nat)
    requires i < j < |s| && s[i] == s[j]
    ensures multiset(s)[s[i]] >= 2
  {
    assert s == s[..j] + [s[j]] + s[j + 1..];
    assert s[..j][i] == s[i];
    assert s[i] in multiset(s[..j]);
  }

  lemma {:induction false} FindTwice(s: seq<Route>, r: Route) returns (i: nat, j: nat)
    requires multiset(s)[r] >= 2
    ensures i < j < |s| && s[i] == s[j] == r
    decreases |s|
  {
    var n := |s| - 1;
    assert s == s[..n] + [s[n]];
    if s[n] == r {
      assert r in multiset(s[..n]);
      i :| 0 <= i < n && s[..n][i] == r;
      j := n;
    } else {
      i, j := FindTwice(s[..n], r);
    }
  }

  lemma AllApartPermutes(a: seq<Route>, b: seq<Route>)
    requires multiset(a) == multiset(b) && WellFormed(a) && AllApart(a)
    ensures AllApart(b)
  {
    forall i, j | 0 <= i < j < |b| ensures Apart(b[i], b[j]) {
      if b[i] == b[j] {
        CountTwice(b, i, j);
        var p, q := FindTwice(a, b[i]);
        assert Apart(a[p], a[q]) && a[p].begin <= a[p].end;
      } else {
        InBoth(a, b, b[i]);
        InBoth(a, b, b[j]);
        var p: nat :| p < |a| && a[p] == b[i];
        var q: nat :| q < |a| && a[q] == b[j];
        assert p < q ==> Apart(a[p], a[q]);
        assert q < p ==> Apart(a[q], a[p]);
      }
    }
  }

  lemma {:induction false} ScanFinds(rs: seq<Route>, k: nat, id: nat)
    requires AllApart(rs) && k < |rs| && Contains(rs[k], id)
    ensures Scan(rs, id) == Some(rs[k].topic)
    decreases |rs|
  {
    if k == 0 {
    } else {
      assert Apart(rs[0], rs[k]);
      ScanFinds(rs[1..], k - 1, id);
    }
  }

  lemma {:induction false} ScanMisses(rs: seq<Route>, id: nat)
    requires forall j | 0 <= j < |rs| :: !Contains(rs[j], id)
    ensures Scan(rs, id) == None
    decreases |rs|
  {
    if rs == [] {
    } else {
      ScanMisses(rs[1..], id);
    }
  }

  /** Disjoint routes give the same answer in every order. */
  lemma ScanPermutes(a: seq<Route>, b: seq<Route>, id: nat)
    requires multiset(a) == multiset(b) && AllApart(a) && AllApart(b)
    ensures Scan(a, id) == Scan(b, id)
  {
    if k: nat :| k < |a| && Contains(a[k], id) {
      InBoth(a, b, a[k]);
      var m: nat :| m < |b| && b[m] == a[k];
      ScanFinds(a, k, id);
      ScanFinds(b, m, id);
    } else {
      forall m | 0 <= m < |b| ensures !Contains(b[m], id) {
        InBoth(a, b, b[m]);
      }
      ScanMisses(a, id);
      ScanMisses(b, id);
    }
  }

  // ---- A sorted arrangement always exists ----

  function InsertByEnd(r: Route, rs: seq<Route>): seq<Route> {
    if rs == [] then [r]
    else if r.end <= rs[0].end then [r] + rs
    else [rs[0]] + InsertByEnd(r, rs[1..])
  }

  lemma {:induction false} InsertKeeps(r: Route, rs: seq<Route>)
    ensures multiset(InsertByEnd(r, rs)) == multiset{r} + multiset(rs)
    decreases |rs|
  {
    if rs == [] || r.end <= rs[0].end {
    } else {
      InsertKeeps(r, rs[1..]);
      assert rs == [rs[0]] + rs[1..];
    }
  }

  ghost predicate AtLeast(rs: seq<Route>, low: nat) {
    forall i | 0 <= i < |rs| :: low <= rs[i].end
  }

  lemma {:induction false} InsertSorts(r: Route, rs: seq<Route>, low: nat)
    requires SortedByEnd(rs) && AtLeast(rs, low) && low <= r.end
    ensures SortedByEnd(InsertByEnd(r, rs)) && AtLeast(InsertByEnd(r, rs), low)
    decreases |rs|
  {
    if rs == [] || r.end <= rs[0].end {
    } else {
      InsertSorts(r, rs[1..], rs[0].end);
    }
  }

  lemma {:induction false} CanArrange(rs: seq<Route>) returns (sorted: seq<Route>)
    ensures Arranges(sorted, rs)
    decreases |rs|
  {
    if rs == [] {
      sorted := [];
    } else {
      var t := CanArrange(rs[1..]);
      InsertSorts(rs[0], t, 0);
      InsertKeeps(rs[0], t);
      sorted := InsertByEnd(rs[0], t);
      assert rs == [rs[0]] + rs[1..];
    }
  }
}
