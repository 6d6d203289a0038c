/**
 The public comment feed: the cursor query of internal/comment/store.go and the paging of
 internal/comment/service.go.  The query orders by creation time alone, so which of several
 comments of the same second comes first is left open: a page is any page the query may give.
 */
module CommentPaging {
  import opened Wrappers

  datatype Comment = Comment(id: int, eventId: int, createdAt: int, body: string)
  datatype Event = Event(id: int, published: bool)
  datatype Page = Page(comments: seq<Comment>, hasMore: bool, next: Option<int>)

  const PAGE_LIMIT := 50

  function PageLimit(limit: int): (n: nat)
    ensures 1 <= n <= 50 && (1 <= limit <= 50 ==> n == limit) && (!(1 <= limit <= 50) ==> n == 50)
  {
    if limit <= 0 || limit > PAGE_LIMIT then PAGE_LIMIT else limit
  }

  /** The comments of the event older than the cursor. */
  function Matches(table: set<Comment>, e: int, cursor: Option<int>): set<Comment> {
    set c | c in table && c.eventId == e && (cursor.Some? ==> c.createdAt < cursor.value)
  }

  // ---------- the query ----------

  ghost predicate Newest(comments: seq<Comment>, matching: set<Comment>) {
    && (forall i :: 0 <= i < |comments| ==> comments[i] in matching)
    && (forall i, j :: 0 <= i < j < |comments| ==> comments[i] != comments[j] && comments[j].createdAt <= comments[i].createdAt)
    && (forall i, c :: 0 <= i < |comments| && c in matching && c !in comments ==> c.createdAt <= comments[i].createdAt)
  }

  /** An answer to "ORDER BY created_at DESC LIMIT n". */
  ghost predicate Answers(comments: seq<Comment>, matching: set<Comment>, n: nat) {
    Newest(comments, matching) && |comments| == if |matching| <= n then |matching| else n
  }

  lemma {:induction false} LatestExists(rest: set<Comment>) returns (c: Comment)
    requires rest != {}
    ensures c in rest && forall d :: d in rest ==> d.createdAt <= c.createdAt
  {
    c :| c in rest;
    if rest - {c} != {} {
      var d := LatestExists(rest - {c});
      if c.createdAt < d.createdAt { c := d; }
    }
  }

  lemma {:induction false} DistinctCount(comments: seq<Comment>, matching: set<Comment>)
    requires forall i :: 0 <= i < |comments| ==> comments[i] in matching
    requires forall i, j :: 0 <= i < j < |comments| ==> comments[i] != comments[j]
    ensures |comments| <= |matching|
    ensures |matching - (set c | c in comments)| == |matching| - |comments|
  {
    if comments == [] {
      assert matching - (set c | c in comments) == matching;
    } else {
      var n := |comments| - 1;
      var front, last := comments[..n], comments[n];
      DistinctCount(front, matching);
      var rest := matching - (set c | c in front);
      assert last !in front && last in rest;
      assert matching - (set c | c in comments) == rest - {last};
    }
  }

  method FindByEventID(table: set<Comment>, e: int, cursor: Option<int>, limit: nat) returns (comments: seq<Comment>)
    ensures Answers(comments, Matches(table, e, cursor), limit + 1)
  {
    var rest := Matches(table, e, cursor);
    comments := [];
    while rest != {} && |comments| < limit + 1
      invariant Newest(comments, Matches(table, e, cursor))
      invariant rest == Matches(table, e, cursor) - set c | c in comments
      invariant |comments| <= limit + 1
      decreases rest
    {
      ghost var latest := LatestExists(rest);
      var c :| c in rest && forall d :: d in rest ==> d.createdAt <= c.createdAt;
      comments := comments + [c];
      rest := rest - {c};
    }
    DistinctCount(comments, Matches(table, e, cursor));
  }

  // ---------- one page ----------

  ghost predicate IsPage(page: Page, matching: set<Comment>, n: nat)
    requires n > 0
  {
    && Answers(page.comments, matching, n)
    && page.hasMore == (|matching| > n)
    && page.next == if |matching| > n then Some(page.comments[n - 1].createdAt) else None
  }

  /** Asking for one row too many and cutting it off is asking for the right number. */
  lemma AnswerPrefix(comments: seq<Comment>, matching: set<Comment>, n: nat)
    requires Answers(comments, matching, n + 1)
    ensures |comments| > n <==> |matching| > n
    ensures |comments| > n ==> Answers(comments[..n], matching, n)
    ensures |comments| <= n ==> Answers(comments, matching, n)
  {
  }

  /** No page for an event that does not exist or is not published. */
  method ListPublic(table: set<Comment>, event: Option<Event>, cursor: Option<int>, limit: int) returns (result: Option<Page>)
    ensures result.Some? <==> event.Some? && event.value.published
    ensures result.Some? ==> IsPage(result.value, Matches(table, event.value.id, cursor), PageLimit(limit))
  {
    if event.None? || !event.value.published {
      return None;
    }
    var n := if limit <= 0 || limit > PAGE_LIMIT then PAGE_LIMIT else limit;
    var comments := FindByEventID(table, event.value.id, cursor, n);
    AnswerPrefix(comments, Matches(table, event.value.id, cursor), n);
    var hasMore := |comments| > n;
    if hasMore {
      comments := comments[..n];
    }
    var page := Page(comments, hasMore, None);
    if hasMore && |comments| > 0 {
      page := page.(next := Some(comments[|comments| - 1].createdAt));
    }
    return Some(page);
  }

  // ---------- following the cursor ----------

  /** Pages read one after the other, each from the cursor its predecessor handed out, over a
      table nobody changes meanwhile. */
  ghost predicate IsWalk(pages: seq<Page>, table: set<Comment>, e: int, cursor: Option<int>, n: nat)
    requires n > 0
  {
    && pages != []
    && IsPage(pages[0], Matches(table, e, cursor), n)
    && (|pages| > 1 ==> pages[0].hasMore && IsWalk(pages[1..], table, e, pages[0].next, n))
  }

  ghost predicate Finished(pages: seq<Page>) {
    pages != [] && !pages[|pages| - 1].hasMore
  }

  function Shown(pages: seq<Page>): seq<Comment> {
    if pages == [] then [] else pages[0].comments + Shown(pages[1..])
  }

  /** What a page leaves for its successors: everything strictly older than its last row. */
  lemma NextMatches(page: Page, table: set<Comment>, e: int, cursor: Option<int>, n: nat)
    requires n > 0 && IsPage(page, Matches(table, e, cursor), n) && page.hasMore
    ensures Matches(table, e, page.next) <= Matches(table, e, cursor) - set c | c in page.comments
    ensures |Matches(table, e, page.next)| + n <= |Matches(table, e, cursor)|
    ensures forall c :: c in Matches(table, e, cursor) && c !in page.comments && c !in Matches(table, e, page.next)
                        ==> c.createdAt == page.comments[n - 1].createdAt
  {
    var here, later := Matches(table, e, cursor), Matches(table, e, page.next);
    assert page.comments[n - 1] in here;
    DistinctCount(page.comments, here);
    SubsetCount(later, here - set c | c in page.comments);
  }

  lemma {:induction false} SubsetCount(a: set<Comment>, b: set<Comment>)
    requires a <= b
    ensures |a| <= |b|
  {
    if a != {} {
      var c :| c in a;
      SubsetCount(a - {c}, b - {c});
    }
  }

  /** Following the cursor comes to an end: every page but the last is full. */
  lemma {:induction false} WalkIsShort(pages: seq<Page>, table: set<Comment>, e: int, cursor: Option<int>, n: nat)
    requires n > 0 && IsWalk(pages, table, e, cursor, n)
    ensures (|pages| - 1) * n <= |Matches(table, e, cursor)|
    ensures |pages| - 1 <= |Matches(table, e, cursor)|
  {
    if |pages| > 1 {
      WalkIsShort(pages[1..], table, e, pages[0].next, n);
      NextMatches(pages[0], table, e, cursor, n);
      assert (|pages| - 1) * n == (|pages| - 2) * n + n;
    }
  }

  lemma {:induction false} ShownMatch(pages: seq<Page>, table: set<Comment>, e: int, cursor: Option<int>, n: nat)
    requires n > 0 && IsWalk(pages, table, e, cursor, n)
    ensures forall c :: c in Shown(pages) ==> c in Matches(table, e, cursor)
  {
    if |pages| > 1 {
      ShownMatch(pages[1..], table, e, pages[0].next, n);
      NextMatches(pages[0], table, e, cursor, n);
    } else {
      assert Shown(pages[1..]) == [];
    }
  }

  /** No comment is shown twice, and the whole feed runs from the newest to the oldest. */
  lemma {:induction false} ShownOnceInOrder(pages: seq<Page>, table: set<Comment>, e: int, cursor: Option<int>, n: nat)
    requires n > 0 && IsWalk(pages, table, e, cursor, n)
    ensures Descending(Shown(pages))
  {
    if |pages| > 1 {
      var first, others := pages[0].comments, Shown(pages[1..]);
      ShownOnceInOrder(pages[1..], table, e, pages[0].next, n);
      ShownMatch(pages[1..], table, e, pages[0].next, n);
      forall i, j | 0 <= i < |first| && 0 <= j < |others|
        ensures first[i] != others[j] && others[j].createdAt <= first[i].createdAt
      {
        assert others[j] in Matches(table, e, pages[0].next);
      }
    } else {
      assert Shown(pages[1..]) == [];
    }
  }

  ghost predicate Descending(comments: seq<Comment>) {
    forall i, j :: 0 <= i < j < |comments| ==> comments[i] != comments[j] && comments[j].createdAt <= comments[i].createdAt
  }

  /** The comment belongs beside the page's last row, but did not fit. */
  predicate CutOff(c: Comment, page: Page) {
    page.comments != [] && c.createdAt == page.comments[|page.comments| - 1].createdAt && c !in page.comments
  }

  ghost predicate CutOffSomewhere(c: Comment, pages: seq<Page>) {
    exists i :: 0 <= i < |pages| - 1 && CutOff(c, pages[i])
  }

  lemma CutOffLater(c: Comment, pages: seq<Page>)
    requires |pages| > 1
    ensures CutOffSomewhere(c, pages) <==> CutOff(c, pages[0]) || CutOffSomewhere(c, pages[1..])
  {
  }

  /** A comment cut off from one page of a walk is older than nothing that walk still shows. */
  lemma {:induction false} CutOffIsMatched(c: Comment, pages: seq<Page>, table: set<Comment>, e: int, cursor: Option<int>, n: nat)
    requires n > 0 && IsWalk(pages, table, e, cursor, n) && c in table && c.eventId == e && CutOffSomewhere(c, pages)
    ensures c in Matches(table, e, cursor)
  {
    CutOffLater(c, pages);
    if CutOff(c, pages[0]) {
      assert pages[0].comments[n - 1] in Matches(table, e, cursor);
    } else {
      CutOffIsMatched(c, pages[1..], table, e, pages[0].next, n);
      NextMatches(pages[0], table, e, cursor, n);
    }
  }

  /** A finished walk leaves out exactly the comments tied with the last row of a non-final page
      that did not fit on it. */
  lemma {:induction false} OmittedExactly(c: Comment, pages: seq<Page>, table: set<Comment>, e: int, cursor: Option<int>, n: nat)
    requires n > 0 && IsWalk(pages, table, e, cursor, n) && Finished(pages) && c in Matches(table, e, cursor)
    ensures c !in Shown(pages) <==> CutOffSomewhere(c, pages)
  {
    if |pages| == 1 {
      assert Shown(pages) == pages[0].comments by { assert Shown(pages[1..]) == []; }
      DistinctCount(pages[0].comments, Matches(table, e, cursor));
    } else {
      CutOffLater(c, pages);
      NextMatches(pages[0], table, e, cursor, n);
      if c in Matches(table, e, pages[0].next) {
        OmittedExactly(c, pages[1..], table, e, pages[0].next, n);
      } else {
        if c in Shown(pages[1..]) { ShownMatch(pages[1..], table, e, pages[0].next, n); }
        if CutOffSomewhere(c, pages[1..]) { CutOffIsMatched(c, pages[1..], table, e, pages[0].next, n); }
      }
    }
  }

  ghost predicate DistinctTimes(table: set<Comment>, e: int) {
    forall a, b :: a in table && b in table && a.eventId == e && b.eventId == e && a.createdAt == b.createdAt ==> a == b
  }

  /** With distinct times a finished walk from the start shows every comment of the event. */
  lemma DistinctTimesShowAll(pages: seq<Page>, table: set<Comment>, e: int, n: nat)
    requires n > 0 && IsWalk(pages, table, e, None, n) && Finished(pages) && DistinctTimes(table, e)
    ensures (set c | c in Shown(pages)) == set c | c in table && c.eventId == e
  {
    ShownMatch(pages, table, e, None, n);
    forall c | c in table && c.eventId == e ensures c in Shown(pages) {
      OmittedExactly(c, pages, table, e, None, n);
      if CutOffSomewhere(c, pages) {
        var i :| 0 <= i < |pages| - 1 && CutOff(c, pages[i]);
        RowsMatch(pages, i, table, e, None, n);
      }
    }
  }

  lemma {:induction false} RowsMatch(pages: seq<Page>, i: nat, table: set<Comment>, e: int, cursor: Option<int>, n: nat)
    requires n > 0 && IsWalk(pages, table, e, cursor, n) && i < |pages|
    ensures forall c :: c in pages[i].comments ==> c in table && c.eventId == e
  {
    if i > 0 { RowsMatch(pages[1..], i - 1, table, e, pages[0].next, n); }
  }

  /** Without them one may be lost: of two comments of one second, one per page shows only one. */
  lemma TieIsLost(a: Comment, b: Comment, pages: seq<Page>)
    requires a != b && a.eventId == b.eventId && a.createdAt == b.createdAt
    requires IsWalk(pages, {a, b}, a.eventId, None, 1) && Finished(pages)
    ensures Shown(pages) == [a] || Shown(pages) == [b]
  {
    var e := a.eventId;
    assert Matches({a, b}, e, None) == {a, b};
    assert pages[0].comments == [a] || pages[0].comments == [b];
    assert Matches({a, b}, e, pages[0].next) == {};
    assert |pages| == 2 && pages[1..][1..] == [];
    assert Shown(pages) == pages[0].comments + (pages[1].comments + Shown(pages[1..][1..]));
  }
}
