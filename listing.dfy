/**
 * The query operators the controllers compose: reading the tickets table,
 * `Where`, a stable `OrderBy`, and counting by status.
 */
module Listing {
  import opened Wrappers
  import opened Models

  /** Every pair of elements, in order, is related by `le`. */
  ghost predicate Sorted<T>(s: seq<T>, le: (T, T) -> bool) {
    forall i, j :: 0 <= i < j < |s| ==> le(s[i], s[j])
  }

  /** `le` is total and transitive, so that it can order any sequence. */
  ghost predicate TotalPreorder<T(!new)>(le: (T, T) -> bool) {
    && (forall a, b :: le(a, b) || le(b, a))
    && (forall a, b, c :: le(a, b) && le(b, c) ==> le(a, c))
  }

  /** No value occurs twice. */
  ghost predicate Unique<T(!new)>(s: seq<T>) {
    forall x :: multiset(s)[x] <= 1
  }

  /** LINQ `Where`: the elements satisfying `p`, in their order. */
  function Where<T(!new)>(s: seq<T>, p: T -> bool): (r: seq<T>)
    ensures forall x :: x in r <==> x in s && p(x)
  {
    if s == [] then []
    else
      assert s == [s[0]] + s[1..];
      (if p(s[0]) then [s[0]] else []) + Where(s[1..], p)
  }

  /** Filtering keeps at most the occurrences it found, so it never duplicates. */
  lemma {:induction false} WhereUnique<T(!new)>(s: seq<T>, p: T -> bool)
    ensures multiset(Where(s, p)) <= multiset(s)
    ensures Unique(s) ==> Unique(Where(s, p))
  {
    if s != [] {
      assert s == [s[0]] + s[1..];
      WhereUnique(s[1..], p);
    }
  }

  /** Filtering a concatenation filters each part. */
  lemma {:induction false} WhereAppend<T(!new)>(a: seq<T>, b: seq<T>, p: T -> bool)
    ensures Where(a + b, p) == Where(a, p) + Where(b, p)
  {
    if a == [] {
      assert a + b == b;
    } else {
      assert (a + b)[1..] == a[1..] + b;
      WhereAppend(a[1..], b, p);
    }
  }

  /** Filtering keeps the order of what it keeps. */
  lemma {:induction false} WhereKeepsOrder<T(!new)>(s: seq<T>, p: T -> bool, le: (T, T) -> bool)
    ensures Sorted(s, le) ==> Sorted(Where(s, p), le)
  {
    if s != [] && Sorted(s, le) {
      WhereKeepsOrder(s[1..], p, le);
      var rest := Where(s[1..], p);
      forall y | y in rest ensures le(s[0], y) {
        var j :| 0 <= j < |s[1..]| && s[1..][j] == y;
        assert s[j + 1] == y;
      }
    }
  }

  /** Inserts `x` before the first element it may precede. */
  function Insert<T(!new)>(x: T, s: seq<T>, le: (T, T) -> bool): (r: seq<T>)
    requires TotalPreorder(le) && Sorted(s, le)
    ensures multiset(r) == multiset(s) + multiset{x}
    ensures Sorted(r, le)
  {
    if s == [] || le(x, s[0]) then
      PrecedesSorted(x, s, le);
      ConsSorted(x, s, le);
      [x] + s
    else
      assert s == [s[0]] + s[1..];
      var rest := Insert(x, s[1..], le);
      HeadPrecedesInsertion(x, s, rest, le);
      ConsSorted(s[0], rest, le);
      [s[0]] + rest
  }

  lemma ConsSorted<T>(y: T, s: seq<T>, le: (T, T) -> bool)
    requires Sorted(s, le)
    requires forall z :: z in s ==> le(y, z)
    ensures Sorted([y] + s, le)
  {
    var r := [y] + s;
    forall i, j | 0 <= i < j < |r| ensures le(r[i], r[j]) {
      assert r[j] == s[j - 1];
      if i > 0 { assert r[i] == s[i - 1]; }
    }
  }

  lemma PrecedesSorted<T(!new)>(x: T, s: seq<T>, le: (T, T) -> bool)
    requires TotalPreorder(le) && Sorted(s, le)
    requires s == [] || le(x, s[0])
    ensures forall z :: z in s ==> le(x, z)
  {
    forall z | z in s ensures le(x, z) {
      var j :| 0 <= j < |s| && s[j] == z;
      if j > 0 { assert le(s[0], s[j]); }
    }
  }

  lemma HeadPrecedesInsertion<T(!new)>(x: T, s: seq<T>, rest: seq<T>, le: (T, T) -> bool)
    requires TotalPreorder(le) && Sorted(s, le)
    requires s != [] && !le(x, s[0])
    requires multiset(rest) == multiset(s[1..]) + multiset{x}
    ensures forall z :: z in rest ==> le(s[0], z)
  {
    assert le(s[0], x);
    forall z | z in rest ensures le(s[0], z) {
      assert z in multiset(rest);
      if z != x {
        assert z in multiset(s[1..]);
        var j :| 0 <= j < |s[1..]| && s[1..][j] == z;
        assert s[j + 1] == z;
      }
    }
  }

  /** A stable insertion sort: LINQ `OrderBy` under the ordering `le`. */
  function SortBy<T(!new)>(s: seq<T>, le: (T, T) -> bool): (r: seq<T>)
    requires TotalPreorder(le)
    ensures multiset(r) == multiset(s)
    ensures |r| == |s|
    ensures Sorted(r, le)
  {
    if s == [] then []
    else
      assert s == [s[0]] + s[1..];
      Insert(s[0], SortBy(s[1..], le), le)
  }

  lemma SortKeepsMembers<T(!new)>(s: seq<T>, le: (T, T) -> bool)
    requires TotalPreorder(le)
    ensures forall x :: x in SortBy(s, le) <==> x in s
    ensures Unique(s) ==> Unique(SortBy(s, le))
  {
    var r := SortBy(s, le);
    forall x ensures x in r <==> x in s {
      assert x in r <==> x in multiset(r);
      assert x in s <==> x in multiset(s);
    }
  }

  /** `OrderByDescending(t => t.CreatedAt)`: newer tickets come first. */
  predicate NewerOrSame(a: Ticket, b: Ticket) {
    a.createdAt >= b.createdAt
  }

  lemma NewerOrSameOrders()
    ensures TotalPreorder(NewerOrSame)
  {
  }

  /** `OrderByDescending(t => t.CreatedAt)`: a stable sort, newest first. */
  function NewestFirst(s: seq<Ticket>): (r: seq<Ticket>)
    ensures multiset(r) == multiset(s) && |r| == |s|
    ensures forall t :: t in r <==> t in s
    ensures Unique(s) ==> Unique(r)
    ensures forall i, j :: 0 <= i < j < |r| ==> r[i].createdAt >= r[j].createdAt
  {
    NewerOrSameOrders();
    SortKeepsMembers(s, NewerOrSame);
    var r := SortBy(s, NewerOrSame);
    assert forall i, j :: 0 <= i < j < |r| ==> NewerOrSame(r[i], r[j]);
    r
  }

  /** The head of the newest-first order is a newest ticket. */
  lemma NewestFirstHead(s: seq<Ticket>)
    ensures s != [] ==> NewestFirst(s)[0] in s
    ensures s != [] ==> forall t :: t in s ==> t.createdAt <= NewestFirst(s)[0].createdAt
  {
    var r := NewestFirst(s);
    forall t | t in s ensures t.createdAt <= r[0].createdAt {
      var j :| 0 <= j < |r| && r[j] == t;
      if j > 0 {
        assert r[0].createdAt >= r[j].createdAt;
      }
    }
    if s != [] {
      assert r[0] in r;
    }
  }

  /** The least element of a non-empty set of ids. */
  function MinKey(ks: set<TicketId>): (k: TicketId)
    requires ks != {}
    ensures k in ks && forall j :: j in ks ==> k <= j
  {
    MinimumExists(ks);
    var k :| k in ks && forall j :: j in ks ==> k <= j;
    k
  }

  lemma MinimumExists(ks: set<TicketId>)
    requires ks != {}
    ensures exists k :: k in ks && forall j :: j in ks ==> k <= j
  {
    var k := Minimum(ks);
  }

  /** Finds the least element by taking one element out and comparing it with the least of the rest. */
  lemma {:induction false} Minimum(ks: set<TicketId>) returns (k: TicketId)
    requires ks != {}
    ensures k in ks && forall j :: j in ks ==> k <= j
    decreases ks
  {
    if forall y :: y !in ks {
      assert false;
    }
    var x :| x in ks;
    var rest := ks - {x};
    assert ks == rest + {x};
    if rest == {} {
      k := x;
    } else {
      var m := Minimum(rest);
      k := if x <= m then x else m;
    }
  }

  /**
   * Reading the tickets table: every stored ticket once, in ascending id
   * order (the order of the primary key).
   */
  function Rows(m: map<TicketId, Ticket>): (r: seq<Ticket>)
    ensures |r| == |m|
    ensures forall t :: t in r <==> t in m.Values
    ensures KeyedById(m) ==> Unique(r)
    decreases m.Keys
  {
    if m == map[] then []
    else
      var k := MinKey(m.Keys);
      var rest := m - {k};
      assert rest.Keys == m.Keys - {k};
      var tail := Rows(rest);
      assert forall t :: t in m.Values <==> t == m[k] || t in rest.Values by {
        forall t | t in m.Values ensures t == m[k] || t in rest.Values {
          var j :| j in m && m[j] == t;
          if j != k { assert rest[j] == t; }
        }
      }
      assert KeyedById(m) ==> m[k] !in tail;
      [m[k]] + tail
  }

  /** Reading the table one row at a time: the first row is the smallest key's ticket. */
  lemma RowsUnfold(m: map<TicketId, Ticket>)
    requires m != map[]
    ensures Rows(m) == [m[MinKey(m.Keys)]] + Rows(m - {MinKey(m.Keys)})
  {
  }

  /** Counting the rows a predicate selects counts the keys whose ticket it selects. */
  lemma {:induction false} WhereRowsCount(m: map<TicketId, Ticket>, p: Ticket -> bool)
    ensures |Where(Rows(m), p)| == |set k | k in m && p(m[k])|
    decreases m.Keys
  {
    if m != map[] {
      var k := MinKey(m.Keys);
      var rest := m - {k};
      assert rest.Keys == m.Keys - {k};
      WhereRowsCount(rest, p);
      RowsUnfold(m);
      WhereCons(m[k], Rows(rest), p);
      SelectedKeysSplit(m, k, p);
    }
  }

  lemma WhereCons<T(!new)>(x: T, rest: seq<T>, p: T -> bool)
    ensures Where([x] + rest, p) == (if p(x) then [x] else []) + Where(rest, p)
  {
    assert ([x] + rest)[1..] == rest;
  }

  /** Nothing is kept when no element satisfies `p`. */
  lemma {:induction false} WhereNone<T(!new)>(s: seq<T>, p: T -> bool)
    ensures (forall x :: x in s ==> !p(x)) ==> Where(s, p) == []
  {
    if s != [] && forall x :: x in s ==> !p(x) {
      assert forall x :: x in s[1..] ==> x in s;
      WhereNone(s[1..], p);
    }
  }

  lemma SelectedKeysSplit(m: map<TicketId, Ticket>, k: TicketId, p: Ticket -> bool)
    requires k in m
    ensures |set j | j in m && p(m[j])| == (if p(m[k]) then 1 else 0) + |set j | j in m - {k} && p((m - {k})[j])|
  {
    var rest := m - {k};
    var all := set j | j in m && p(m[j]);
    var tail := set j | j in rest && p(rest[j]);
    assert all == tail + (if p(m[k]) then {k} else {}) by {
      forall j | j in all ensures j in tail || (p(m[k]) && j == k) {
        if j != k { assert j in rest; }
      }
    }
    assert k !in tail;
  }

  /** `tickets.Count(t => t.Status == status)`. */
  function CountStatus(s: seq<Ticket>, status: TicketStatus): (n: nat)
    ensures n <= |s|
    ensures n == 0 <==> forall t :: t in s ==> t.status != status
  {
    if s == [] then 0
    else
      assert s == [s[0]] + s[1..];
      (if s[0].status == status then 1 else 0) + CountStatus(s[1..], status)
  }

  /** The four status counts partition the list: every ticket has exactly one of the four statuses. */
  lemma {:induction false} StatusCountsPartition(s: seq<Ticket>)
    ensures CountStatus(s, Open) + CountStatus(s, InProgress) + CountStatus(s, Resolved) + CountStatus(s, Closed) == |s|
  {
    if s != [] {
      StatusCountsPartition(s[1..]);
    }
  }

  /** A filter that keeps every element changes nothing. */
  lemma {:induction false} WhereAll<T(!new)>(s: seq<T>, p: T -> bool)
    requires forall x :: x in s ==> p(x)
    ensures Where(s, p) == s
  {
    if s != [] {
      assert s == [s[0]] + s[1..];
      WhereAll(s[1..], p);
    }
  }

  /** Counting one status among the rows a predicate selects counts the keys it selects that have that status. */
  lemma {:induction false} CountStatusWhereRows(m: map<TicketId, Ticket>, p: Ticket -> bool, status: TicketStatus)
    ensures CountStatus(Where(Rows(m), p), status) == |set k | k in m && p(m[k]) && m[k].status == status|
    decreases m.Keys
  {
    if m != map[] {
      var k := MinKey(m.Keys);
      var rest := m - {k};
      assert rest.Keys == m.Keys - {k};
      CountStatusWhereRows(rest, p, status);
      RowsUnfold(m);
      WhereCons(m[k], Rows(rest), p);
      var tail := Where(Rows(rest), p);
      if p(m[k]) {
        assert ([m[k]] + tail)[1..] == tail;
      } else {
        assert [] + tail == tail;
      }
      StatusKeysSplit(m, k, p, status);
    }
  }

  lemma StatusKeysSplit(m: map<TicketId, Ticket>, k: TicketId, p: Ticket -> bool, status: TicketStatus)
    requires k in m
    ensures |set j | j in m && p(m[j]) && m[j].status == status| ==
            (if p(m[k]) && m[k].status == status then 1 else 0) +
            |set j | j in m - {k} && p((m - {k})[j]) && (m - {k})[j].status == status|
  {
    var q := (t: Ticket) => p(t) && t.status == status;
    SelectedKeysSplit(m, k, q);
    SameSelection(m, p, q, status);
    SameSelection(m - {k}, p, q, status);
  }

  lemma SameSelection(m: map<TicketId, Ticket>, p: Ticket -> bool, q: Ticket -> bool, status: TicketStatus)
    requires forall t :: q(t) == (p(t) && t.status == status)
    ensures (set j | j in m && q(m[j])) == (set j | j in m && p(m[j]) && m[j].status == status)
  {
  }

  /** `s.Count(t => t.Status == status)` over the whole table counts the stored tickets with that status. */
  lemma CountStatusRows(m: map<TicketId, Ticket>, status: TicketStatus)
    ensures CountStatus(Rows(m), status) == |set k | k in m && m[k].status == status|
  {
    var all := (t: Ticket) => true;
    WhereAll(Rows(m), all);
    CountStatusWhereRows(m, all, status);
    KeepAllKeys(m, all, status);
  }

  lemma KeepAllKeys(m: map<TicketId, Ticket>, all: Ticket -> bool, status: TicketStatus)
    requires forall t :: all(t)
    ensures (set k | k in m && all(m[k]) && m[k].status == status) == (set k | k in m && m[k].status == status)
  {
  }

  /** Two positions holding the same value make it occur twice. */
  lemma RepeatedTwice<T>(s: seq<T>, i: int, j: int)
    requires 0 <= i < j < |s| && s[i] == s[j]
    ensures multiset(s)[s[i]] >= 2
  {
    assert s == s[..j] + [s[j]] + s[j + 1..];
    assert s[..j][i] == s[i];
    assert s[i] in multiset(s[..j]);
  }

  /** Ordinal (character-code) order on text, as used to sort names. */
  predicate TextLe(a: string, b: string)
    decreases |a|
  {
    |a| == 0 || (|b| > 0 && (a[0] < b[0] || (a[0] == b[0] && TextLe(a[1..], b[1..]))))
  }

  lemma {:induction false} TextLeTotal(a: string, b: string)
    ensures TextLe(a, b) || TextLe(b, a)
    decreases |a|
  {
    if |a| > 0 && |b| > 0 && a[0] == b[0] {
      TextLeTotal(a[1..], b[1..]);
    }
  }

  lemma {:induction false} TextLeTransitive(a: string, b: string, c: string)
    requires TextLe(a, b) && TextLe(b, c)
    ensures TextLe(a, c)
    decreases |a|
  {
    if |a| > 0 && a[0] == b[0] && b[0] == c[0] {
      TextLeTransitive(a[1..], b[1..], c[1..]);
    }
  }
}
