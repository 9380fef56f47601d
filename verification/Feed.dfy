/**
  Rows, feeds and the one specification that every paginator is held to.
  A row belongs to `owner`, was created at `createdAt` and carries `item`
  (a tweet id in a news feed, a user id in a friendship table).
 */
module Feed {
  import opened Outcomes
  import opened Text

  datatype Row = Row(owner: int, createdAt: int, item: int)

  /** The two query parameters of a page request. */
  datatype Request = Request(gt: Option<int>, lt: Option<int>)

  datatype Page = Page(rows: seq<Row>, hasNext: bool)

  ghost predicate Descending(s: seq<Row>) {
    forall i, j :: 0 <= i < j < |s| ==> s[i].createdAt > s[j].createdAt
  }

  ghost predicate Ascending(s: seq<Row>) {
    forall i, j :: 0 <= i < j < |s| ==> s[i].createdAt < s[j].createdAt
  }

  ghost function Elements(s: seq<Row>): set<Row> {
    set r | r in s
  }

  function Take<T>(s: seq<T>, n: nat): (r: seq<T>)
    ensures |r| == if |s| < n then |s| else n
  {
    if |s| < n then s else s[..n]
  }

  // ---------- filters ----------

  function Below(s: seq<Row>, t: int): seq<Row> {
    if s == [] then []
    else if s[0].createdAt < t then [s[0]] + Below(s[1..], t)
    else Below(s[1..], t)
  }

  function Above(s: seq<Row>, t: int): seq<Row> {
    if s == [] then []
    else if s[0].createdAt > t then [s[0]] + Above(s[1..], t)
    else Above(s[1..], t)
  }

  function Owned(s: seq<Row>, owner: int): seq<Row> {
    if s == [] then []
    else if s[0].owner == owner then [s[0]] + Owned(s[1..], owner)
    else Owned(s[1..], owner)
  }

  lemma {:induction false} BelowAppend(a: seq<Row>, b: seq<Row>, t: int)
    ensures Below(a + b, t) == Below(a, t) + Below(b, t)
  {
    if a == [] {
      assert a + b == b;
    } else {
      BelowAppend(a[1..], b, t);
      assert (a + b)[1..] == a[1..] + b;
    }
  }

  lemma {:induction false} AboveAppend(a: seq<Row>, b: seq<Row>, t: int)
    ensures Above(a + b, t) == Above(a, t) + Above(b, t)
  {
    if a == [] {
      assert a + b == b;
    } else {
      AboveAppend(a[1..], b, t);
      assert (a + b)[1..] == a[1..] + b;
    }
  }

  lemma {:induction false} BelowRev(s: seq<Row>, t: int)
    ensures Below(Rev(s), t) == Rev(Below(s, t))
  {
    if s != [] {
      BelowRev(s[1..], t);
      assert Rev(s) == Rev(s[1..]) + [s[0]];
      BelowAppend(Rev(s[1..]), [s[0]], t);
    }
  }

  lemma {:induction false} AboveRev(s: seq<Row>, t: int)
    ensures Above(Rev(s), t) == Rev(Above(s, t))
  {
    if s != [] {
      AboveRev(s[1..], t);
      assert Rev(s) == Rev(s[1..]) + [s[0]];
      AboveAppend(Rev(s[1..]), [s[0]], t);
    }
  }

  lemma {:induction false} AllBelow(s: seq<Row>, t: int)
    requires forall r :: r in s ==> r.createdAt < t
    ensures Below(s, t) == s
  {
    if s != [] {
      AllBelow(s[1..], t);
    }
  }

  lemma {:induction false} NoneBelow(s: seq<Row>, t: int)
    requires forall r :: r in s ==> r.createdAt >= t
    ensures Below(s, t) == []
  {
    if s != [] {
      NoneBelow(s[1..], t);
    }
  }

  lemma {:induction false} AllAbove(s: seq<Row>, t: int)
    requires forall r :: r in s ==> r.createdAt > t
    ensures Above(s, t) == s
  {
    if s != [] {
      AllAbove(s[1..], t);
    }
  }

  lemma {:induction false} NoneAbove(s: seq<Row>, t: int)
    requires forall r :: r in s ==> r.createdAt <= t
    ensures Above(s, t) == []
  {
    if s != [] {
      NoneAbove(s[1..], t);
    }
  }

  /** In a descending feed the rows below a cursor are a suffix. */
  lemma BelowIsSuffix(feed: seq<Row>, t: int, k: nat)
    requires k <= |feed|
    requires forall i :: 0 <= i < k ==> feed[i].createdAt >= t
    requires forall i :: k <= i < |feed| ==> feed[i].createdAt < t
    ensures Below(feed, t) == feed[k..]
  {
    BelowAppend(feed[..k], feed[k..], t);
    NoneBelow(feed[..k], t);
    AllBelow(feed[k..], t);
    assert feed == feed[..k] + feed[k..];
  }

  /** In a descending feed the rows above a cursor are a prefix. */
  lemma AboveIsPrefix(feed: seq<Row>, t: int, k: nat)
    requires k <= |feed|
    requires forall i :: 0 <= i < k ==> feed[i].createdAt > t
    requires forall i :: k <= i < |feed| ==> feed[i].createdAt <= t
    ensures Above(feed, t) == feed[..k]
  {
    AboveAppend(feed[..k], feed[k..], t);
    AllAbove(feed[..k], t);
    NoneAbove(feed[k..], t);
    assert feed == feed[..k] + feed[k..];
  }

  /** Where a cursor splits a descending feed. */
  ghost function Split(feed: seq<Row>, t: int): (k: nat)
    requires Descending(feed)
    ensures k <= |feed|
    ensures forall i :: 0 <= i < k ==> feed[i].createdAt >= t
    ensures forall i :: k <= i < |feed| ==> feed[i].createdAt < t
  {
    if feed == [] || feed[0].createdAt < t then 0 else
      var k := Split(feed[1..], t);
      assert forall i :: k + 1 <= i < |feed| ==> feed[i] == feed[1..][i - 1];
      k + 1
  }

  lemma BelowOfDescending(feed: seq<Row>, t: int)
    requires Descending(feed)
    ensures Below(feed, t) == feed[Split(feed, t)..]
    ensures Descending(Below(feed, t))
  {
    BelowIsSuffix(feed, t, Split(feed, t));
  }

  lemma AboveOfDescending(feed: seq<Row>, t: int)
    requires Descending(feed)
    ensures Above(feed, t) == feed[..Split(feed, t + 1)]
    ensures Descending(Above(feed, t))
  {
    AboveIsPrefix(feed, t, Split(feed, t + 1));
  }

  lemma FiltersDescend(feed: seq<Row>, t: int)
    requires Descending(feed)
    ensures Descending(Below(feed, t)) && Descending(Above(feed, t))
  {
    BelowOfDescending(feed, t);
    AboveOfDescending(feed, t);
  }

  /** One row more than asked for tells whether there are more, and is cut off again. */
  lemma TakeOneMore<T>(s: seq<T>, n: nat, more: seq<T>)
    requires more == Take(s, n + 1)
    ensures |more| > n <==> |s| > n
    ensures (if |more| > n then more[..|more| - 1] else more) == Take(s, n)
  {
  }

  // ---------- membership ----------

  lemma {:induction false} BelowMembers(s: seq<Row>, t: int, r: Row)
    ensures r in Below(s, t) <==> r in s && r.createdAt < t
  {
    if s != [] {
      BelowMembers(s[1..], t, r);
    }
  }

  lemma {:induction false} AboveMembers(s: seq<Row>, t: int, r: Row)
    ensures r in Above(s, t) <==> r in s && r.createdAt > t
  {
    if s != [] {
      AboveMembers(s[1..], t, r);
    }
  }

  lemma {:induction false} OwnedMembers(s: seq<Row>, owner: int, r: Row)
    ensures r in Owned(s, owner) <==> r in s && r.owner == owner
  {
    if s != [] {
      OwnedMembers(s[1..], owner, r);
    }
  }

  /** A strictly descending feed is determined by its set of rows. */
  lemma {:induction false} DescendingUnique(a: seq<Row>, b: seq<Row>)
    requires Descending(a) && Descending(b)
    requires forall r :: r in a <==> r in b
    ensures a == b
  {
    if b != [] {
      assert b[0] in a;
    }
    if a != [] {
      assert a[0] in b;
      assert a[0] == b[0];
      forall r ensures r in a[1..] <==> r in b[1..] {
        if r in a[1..] {
          assert r in a && r != a[0];
        }
        if r in b[1..] {
          assert r in b && r != b[0];
        }
      }
      DescendingUnique(a[1..], b[1..]);
    }
  }

  // ---------- the page specification ----------

  /** The rows a request asks for, newest first. */
  function Asked(feed: seq<Row>, req: Request): seq<Row> {
    if req.gt.Some? then Above(feed, req.gt.value)
    else if req.lt.Some? then Below(feed, req.lt.value)
    else feed
  }

  /** The page of a descending feed: everything newer, or one page of what is older. */
  function PageOf(feed: seq<Row>, req: Request, size: nat): Page {
    var asked := Asked(feed, req);
    if req.gt.Some? then Page(asked, false)
    else Page(Take(asked, size), |asked| > size)
  }

  predicate Admits(req: Request, r: Row) {
    if req.gt.Some? then r.createdAt > req.gt.value
    else req.lt.Some? ==> r.createdAt < req.lt.value
  }

  /**
    What a client may rely on, said of the set of stored rows alone: the page is in strictly
    descending order, holds only admitted rows, leaves out only rows that are older than all
    it shows, is full unless nothing is left out, and `hasNext` says whether something is
    left out. A pull-to-refresh leaves out nothing.
   */
  ghost predicate IsPage(stored: set<Row>, req: Request, size: nat, page: Page) {
    && Descending(page.rows)
    && (forall r :: r in page.rows ==> r in stored && Admits(req, r))
    && (forall r, p :: r in stored && Admits(req, r) && r !in page.rows && p in page.rows ==>
          r.createdAt < p.createdAt)
    && (page.hasNext <==> exists r :: r in stored && Admits(req, r) && r !in page.rows)
    && (page.hasNext ==> req.gt.None? && |page.rows| == size)
    && (req.gt.None? ==> |page.rows| <= size)
  }

  lemma AskedMembers(feed: seq<Row>, req: Request, r: Row)
    ensures r in Asked(feed, req) <==> r in feed && Admits(req, r)
  {
    if req.gt.Some? {
      AboveMembers(feed, req.gt.value, r);
    } else if req.lt.Some? {
      BelowMembers(feed, req.lt.value, r);
    }
  }

  lemma AskedDescending(feed: seq<Row>, req: Request)
    requires Descending(feed)
    ensures Descending(Asked(feed, req))
  {
    if req.gt.Some? {
      AboveOfDescending(feed, req.gt.value);
    } else if req.lt.Some? {
      BelowOfDescending(feed, req.lt.value);
    }
  }

  /** The computed page meets the specification. */
  lemma PageOfIsPage(feed: seq<Row>, req: Request, size: nat)
    requires Descending(feed)
    ensures IsPage(Elements(feed), req, size, PageOf(feed, req, size))
  {
    var asked, page := Asked(feed, req), PageOf(feed, req, size);
    AskedDescending(feed, req);
    forall r ensures r in asked <==> r in feed && Admits(req, r) {
      AskedMembers(feed, req, r);
    }
    forall r, p | r in asked && r !in page.rows && p in page.rows
      ensures r.createdAt < p.createdAt
    {
      var i :| 0 <= i < |asked| && asked[i] == r;
      var j :| 0 <= j < |page.rows| && page.rows[j] == p;
      assert p == asked[j] && i >= |page.rows|;
    }
    if page.hasNext {
      assert asked[size] in asked && asked[size] !in page.rows;
    }
  }

  /** The specification leaves no freedom: the rows and the flag are determined. */
  lemma IsPageUnique(stored: set<Row>, req: Request, size: nat, p: Page, q: Page)
    requires IsPage(stored, req, size, p) && IsPage(stored, req, size, q)
    requires forall r, s :: r in stored && s in stored && r.createdAt == s.createdAt ==> r == s
    ensures p == q
  {
    OnePageInOther(stored, req, size, p, q);
    OnePageInOther(stored, req, size, q, p);
    DescendingUnique(p.rows, q.rows);
  }

  lemma OnePageInOther(stored: set<Row>, req: Request, size: nat, p: Page, q: Page)
    requires IsPage(stored, req, size, p) && IsPage(stored, req, size, q)
    requires forall r, s :: r in stored && s in stored && r.createdAt == s.createdAt ==> r == s
    ensures forall r :: r in p.rows ==> r in q.rows
  {
    if r :| r in p.rows && r !in q.rows {
      assert q.hasNext && |q.rows| == size;
      forall s | s in q.rows ensures s in p.rows {
        assert r.createdAt < s.createdAt;
      }
      SmallerSet(q.rows, p.rows, r);
    }
  }

  /** Distinct rows of q that all lie in p, which also holds r, make q the shorter one. */
  lemma SmallerSet(q: seq<Row>, p: seq<Row>, r: Row)
    requires Descending(q) && Descending(p)
    requires r in p && r !in q && forall s :: s in q ==> s in p
    ensures |q| < |p|
  {
    CardinalityOfDescending(q);
    CardinalityOfDescending(p);
    assert r in Elements(p) && r !in Elements(q);
    assert Elements(q) <= Elements(p);
    Subset(Elements(q), Elements(p));
  }

  lemma {:induction false} Subset(a: set<Row>, b: set<Row>)
    requires a < b
    ensures |a| < |b|
  {
    if a != {} {
      var x :| x in a;
      Subset(a - {x}, b - {x});
    }
  }

  lemma {:induction false} CardinalityOfDescending(s: seq<Row>)
    requires Descending(s)
    ensures |Elements(s)| == |s|
  {
    if s != [] {
      CardinalityOfDescending(s[1..]);
      assert Elements(s) == Elements(s[1..]) + {s[0]};
    }
  }
}
