/** ListVolumes: one page of file shares, and the cursor for the next one cut out of a URL. */
module ListVolumes {
  import opened Strings
  import opened RetryEngine
  import opened Backoff
  import opened Paging

  const MAX_LIMIT := 100
  const START_NOT_FOUND := "start parameter is not valid"

  /** A page from the backend: share IDs and the URL of the next page, if there is one. */
  datatype ShareList = ShareList(shares: seq<string>, next: Option<string>)

  datatype Listing = Listed(volumes: seq<string>, next: string) | ListingFailed(code: string)

  /** The cursor of the next page: what stands between the first "start=" and the next "&". */
  function NextToken(href: string): string {
    if Contains(href, "start=") then
      SplitContaining(href, "start=");
      Split(Split(href, "start=")[1], "&")[0]
    else ""
  }

  /** The URL's first "start=" is followed by this token, which contains neither "&" nor
      "start=", and the token ends the URL or is followed by "&". */
  ghost predicate TokenHref(href: string, token: string) {
    exists before, after :: TokenHrefParts(href, before, token, after)
  }

  ghost predicate TokenHrefParts(href: string, before: string, token: string, after: string) {
    && href == before + "start=" + token + after
    && (forall j :: 0 <= j < |before| ==> !OccursAt(href, "start=", j))
    && '&' !in token && !Contains(token, "start=")
    && (after == "" || after[0] == '&')
  }

  /** The part up to the next "start=" still begins with the whole token, and ends there or goes
      on with "&". */
  lemma TokenSurvivesFirstSplit(token: string, after: string)
    requires '&' !in token && !Contains(token, "start=")
    requires after == "" || after[0] == '&'
    ensures var part := Split(token + after, "start=")[0];
      token <= part && (part == token || part[|token|] == '&')
  {
    var rest := token + after;
    forall j | 0 <= j <= |token| ensures !OccursAt(rest, "start=", j) {
      if j + 6 <= |token| {
        assert token[j..j + 6] == rest[j..j + 6];
        assert !OccursAt(token, "start=", j);
      } else if j + 6 <= |rest| {
        assert rest[j..j + 6][|token| - j] == '&';
      }
    }
  }

  lemma SplitAtAmpersand(token: string, part: string)
    requires '&' !in token && token <= part && (part == token || part[|token|] == '&')
    ensures Split(part, "&")[0] == token
  {
    var i := IndexFrom(part, "&", 0);
    forall j | 0 <= j < |token| ensures !OccursAt(part, "&", j) {
      assert part[j] == token[j] && part[j..j + 1] == [part[j]];
    }
    if part != token {
      assert part[|token|..|token| + 1] == "&";
      assert OccursAt(part, "&", |token|);
    }
  }

  lemma FirstIndex(before: string, separator: string, rest: string)
    requires separator != "" && forall j :: 0 <= j < |before| ==> !OccursAt(before + separator + rest, separator, j)
    ensures IndexFrom(before + separator + rest, separator, 0) == |before|
  {
    var s := before + separator + rest;
    assert s[|before|..|before| + |separator|] == separator;
    assert OccursAt(s, separator, |before|);
  }

  /** What follows the first separator is split further. */
  lemma SplitAtFirst(before: string, separator: string, rest: string)
    requires separator != "" && forall j :: 0 <= j < |before| ==> !OccursAt(before + separator + rest, separator, j)
    ensures var s := before + separator + rest;
      Contains(s, separator) && Split(s, separator) == [before] + Split(rest, separator)
  {
    var s := before + separator + rest;
    FirstIndex(before, separator, rest);
    assert s[..|before|] == before && s[|before| + |separator|..] == rest;
  }

  /** Round trip: the double split gets back exactly the token a next-page URL carries. */
  lemma TokenRoundTrip(href: string, token: string)
    requires TokenHref(href, token)
    ensures NextToken(href) == token
  {
    hide Split, Contains, OccursAt;
    var before, after :| TokenHrefParts(href, before, token, after);
    TokenSurvivesFirstSplit(token, after);
    assert before + "start=" + (token + after) == href;
    SplitAtFirst(before, "start=", token + after);
    SplitAtAmpersand(token, Split(token + after, "start=")[0]);
  }

  // ---- One page ----

  /** How the backend answers the k-th call of the process, a list with this limit and cursor. */
  type Lister = (nat, int, string) -> Reply<ShareList>

  function Replies(list: Lister, limit: int, start: string): nat -> Reply<ShareList> {
    (k: nat) => list(k, limit, start)
  }

  function Clamp(limit: int): int {
    if limit > MAX_LIMIT then MAX_LIMIT else limit
  }

  function ErrorText(e: Err): string {
    match e
    case Api(_, text) => text
    case Message(_) => ""
    case Other(text) => text
  }

  function ToListing(o: Out<Option<ShareList>>): Listing {
    match o.err
    case Some(e) =>
      ListingFailed(if Contains(ErrorText(e), START_NOT_FOUND) then "StartVolumeIDNotFound" else "ListVolumesFailed")
    case None =>
      match o.s
      case None => Listed([], "")
      case Some(page) => Listed(page.shares, if page.next.Some? then NextToken(page.next.value) else "")
  }

  /** What this reply makes of a listing: the shares of the page in order and the cursor its URL
      carries, or a code that depends on the text of the error. */
  ghost predicate ListingOf(reply: Reply<ShareList>, r: Listing) {
    match reply
    case Ok(page) =>
      && r.Listed? && r.volumes == page.shares
      && (page.next.None? ==> r.next == "")
      && (page.next.Some? && !Contains(page.next.value, "start=") ==> r.next == "")
      && forall token :: page.next.Some? && TokenHref(page.next.value, token) ==> r.next == token
    case Fail(e) =>
      var invalidStart := (e.Api? || e.Other?) && Contains(e.text, "start parameter is not valid");
      r == ListingFailed(if invalidStart then "StartVolumeIDNotFound" else "ListVolumesFailed")
  }

  lemma ReplyMakesListing(reply: Reply<ShareList>, o: Out<Option<ShareList>>)
    requires Matches(o, reply)
    ensures ListingOf(reply, ToListing(o))
  {
    hide NextToken, TokenHref;
    if reply.Ok? && reply.value.next.Some? {
      var href := reply.value.next.value;
      forall token | TokenHref(href, token) ensures NextToken(href) == token {
        TokenRoundTrip(href, token);
      }
      NoToken(href);
    } else if reply.Fail? && reply.err.Message? {
      NothingInEmpty(START_NOT_FOUND);
    }
  }

  lemma NoToken(href: string)
    ensures !Contains(href, "start=") ==> NextToken(href) == ""
  {
  }

  lemma NothingInEmpty(t: string)
    requires t != ""
    ensures !Contains("", t)
  {
  }

  method ListPage(p: Process, list: Lister, limit: int, start: string) returns (r: Listing)
    requires p.maxRetryAttempt >= 1 && p.retryGap >= 0 && p.maxRetryGap >= 0
    modifies p`retryGap, p`slept, p`calls
    ensures p.retryGap >= 0
    ensures limit < 0 ==> r == ListingFailed("InvalidListVolumesLimit") && p.calls == old(p.calls)
    ensures limit >= 0 ==>
      var o := RetryLeaf(p.maxRetryAttempt, p.maxRetryGap, Replies(list, Clamp(limit), start), old(p.Now()));
      r == ToListing(o) && p.Now() == o.w
    ensures limit >= 0 ==>
      var most := if limit > 100 then 100 else limit;
      var k := old(p.calls) + LastCall(Replies(list, most, start), old(p.calls), 0, p.maxRetryAttempt);
      p.calls == k + 1 && ListingOf(list(k, most, start), r)
  {
    hide SkipRetry, NextToken, TokenHref, Contains, LastCall;
    if limit < 0 {
      return ListingFailed("InvalidListVolumesLimit");
    }
    var max := limit;
    if max > MAX_LIMIT {
      max := MAX_LIMIT;
    }
    ghost var w := p.Now();
    var err, volumes := p.Retry(Leaf(Replies(list, max, start)), None);
    RetryRefinement(p.maxRetryAttempt, p.maxRetryGap, Replies(list, max, start), w);
    ReplyMakesListing(list(p.calls - 1, max, start), Out(err, volumes, p.Now()));
    if err.Some? {
      if Contains(ErrorText(err.value), START_NOT_FOUND) {
        return ListingFailed("StartVolumeIDNotFound");
      }
      return ListingFailed("ListVolumesFailed");
    }
    var token := "";
    var found: seq<string> := [];
    if volumes.Some? {
      if volumes.value.next.Some? {
        token := NextToken(volumes.value.next.value);
      }
      var shares := volumes.value.shares;
      for k := 0 to |shares|
        invariant found == shares[..k]
      {
        found := found + [shares[k]];
      }
      assert shares[..|shares|] == shares;
    }
    return Listed(found, token);
  }

  // ---- The whole listing ----

  /** A backend that serves this split of the shares into pages: every answer is an error or the
      page at the cursor, whose URL carries the cursor of the next page. */
  ghost predicate Honest(list: Lister, pages: seq<seq<string>>, cursors: seq<string>, hrefs: seq<string>) {
    && ValidSplit(pages, cursors) && |hrefs| == |cursors|
    && (forall n :: 0 <= n < |hrefs| ==> TokenHref(hrefs[n], cursors[n]))
    && forall k: nat, limit: int, start: string :: HonestAnswer(list(k, limit, start), pages, cursors, hrefs, start)
  }

  ghost predicate HonestAnswer(r: Reply<ShareList>, pages: seq<seq<string>>, cursors: seq<string>, hrefs: seq<string>,
                               start: string)
    requires |pages| == |cursors| + 1 && |hrefs| == |cursors|
  {
    var n := PageAt(cursors, start);
    r.Fail? || (n < |pages| && r.value == ShareList(pages[n], if n < |hrefs| then Some(hrefs[n]) else None))
  }

  /** A page listed by an honest backend, through any number of failed attempts, is the page at
      the cursor, and leads to the next page's cursor or, from the last page, to none. */
  lemma HonestPage(list: Lister, pages: seq<seq<string>>, cursors: seq<string>, hrefs: seq<string>,
                   n: nat, cap: nat, limit: int, start: string, w: World)
    requires Honest(list, pages, cursors, hrefs) && n >= 1 && w.gap >= 0
    requires ToListing(RetryLeaf(n, cap, Replies(list, limit, start), w)).Listed?
    ensures var r, at := ToListing(RetryLeaf(n, cap, Replies(list, limit, start), w)), PageAt(cursors, start);
      at < |pages| && r.volumes == pages[at] && r.next == if at < |cursors| then cursors[at] else ""
  {
    hide SkipRetry, NextToken, PageAt;
    var replies := Replies(list, limit, start);
    RetryRefinement(n, cap, replies, w);
    var k := w.calls + LastCall(replies, w.calls, 0, n);
    assert replies(k) == list(k, limit, start);
    assert HonestAnswer(list(k, limit, start), pages, cursors, hrefs, start);
    var at := PageAt(cursors, start);
    if at < |cursors| {
      TokenRoundTrip(hrefs[at], cursors[at]);
    }
  }

  lemma {:induction false} FlattenConcat<T>(a: seq<seq<T>>, b: seq<seq<T>>)
    ensures Flatten(a + b) == Flatten(a) + Flatten(b)
  {
    if a == [] {
      assert a + b == b;
    } else {
      assert (a + b)[1..] == a[1..] + b;
      FlattenConcat(a[1..], b);
    }
  }

  /** The first n pages hold a beginning of the list, and page n comes next. */
  lemma TakePages<T>(pages: seq<seq<T>>, n: nat)
    requires n <= |pages|
    ensures Flatten(pages[..n]) <= Flatten(pages)
    ensures n < |pages| ==> Flatten(pages[..n + 1]) == Flatten(pages[..n]) + pages[n]
  {
    FlattenConcat(pages[..n], pages[n..]);
    assert pages[..n] + pages[n..] == pages;
    if n < |pages| {
      FlattenConcat(pages[..n], [pages[n]]);
      assert pages[..n] + [pages[n]] == pages[..n + 1];
      assert Flatten([pages[n]]) == pages[n] + [] == pages[n];
    }
  }

  /** The driver loop: list from the start, then from each returned cursor until there is none or
      a call fails. What it collects is always a beginning of the backend's list, item by item
      and in order, and without an error it is the whole list. */
  method ListAll(p: Process, list: Lister, limit: int,
                 ghost pages: seq<seq<string>>, ghost cursors: seq<string>, ghost hrefs: seq<string>)
      returns (all: seq<string>, failed: bool)
    requires p.maxRetryAttempt >= 1 && p.retryGap >= 0 && p.maxRetryGap >= 0
    requires Honest(list, pages, cursors, hrefs)
    modifies p`retryGap, p`slept, p`calls
    ensures all <= Flatten(pages)
    ensures !failed ==> all == Flatten(pages)
  {
    all, failed := [], false;
    var start := "";
    ghost var n := 0;
    assert pages[..|pages|] == pages;
    while true
      invariant p.retryGap >= 0
      invariant n == PageAt(cursors, start) < |pages|
      invariant all == Flatten(pages[..n])
      decreases |pages| - n
    {
      ghost var w := p.Now();
      TakePages(pages, n);
      var r := ListPage(p, list, limit, start);
      if r.ListingFailed? {
        failed := true;
        return;
      }
      HonestPage(list, pages, cursors, hrefs, p.maxRetryAttempt, p.maxRetryGap, Clamp(limit), start, w);
      all := all + r.volumes;
      if r.next == "" {
        return;
      }
      CursorFindsPage(pages, cursors, n);
      n := n + 1;
      start := r.next;
    }
  }
}
