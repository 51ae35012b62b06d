/** Searching a paged list: the subnet of a volume's zone among the cluster's subnets, and a
    security group by name. Both walk the pages by cursor and stop at the first match. */
module Paging {
  import opened Strings
  import opened RetryEngine

  /** A listed subnet or security group. */
  datatype Item = Item(id: string, name: string)

  /** Where a page says the next one is: nowhere, at an href that does not parse, or at an href
      with this `start` query value ("" when the href has none). */
  datatype Next = Last | Unparsable | Cursor(start: string)

  /** The answer to a list call from a cursor. */
  datatype Page = ListError | NilList | Page(items: seq<Item>, next: Next)

  datatype Search = Found(id: string) | Failed(code: string)

  /** How a walk over the pages ends; Cut: it stopped where the pages go on. */
  datatype End = Complete | ListFailed | BadCursor | Cut

  /** The cursor that the page at `start` leads to, if the search would follow it. */
  predicate LeadsOn(fetch: string -> Page, start: string) {
    fetch(start).Page? && fetch(start).next.Cursor? && fetch(start).next.start != ""
  }

  /** The cursor reached from `start` by following k of them, or fewer where the pages end. */
  function Follow(fetch: string -> Page, start: string, k: nat): string
    decreases k
  {
    if k == 0 || !LeadsOn(fetch, start) then start else Follow(fetch, fetch(start).next.start, k - 1)
  }

  // ---- The reference: one list, searched front to back ----

  /** Everything the first k + 1 pages from `start` on contain, and how the walk over them ends. */
  function Walk(fetch: string -> Page, start: string, k: nat): (seq<Item>, End)
    decreases k
  {
    match fetch(start)
    case ListError => ([], ListFailed)
    case NilList => ([], ListFailed)
    case Page(items, Last) => (items, Complete)
    case Page(items, Unparsable) => (items, BadCursor)
    case Page(items, Cursor(next)) =>
      if next == "" then (items, BadCursor)
      else if k == 0 then (items, Cut)
      else
        var rest := Walk(fetch, next, k - 1);
        (items + rest.0, rest.1)
  }

  /** Linear search. */
  function FirstMatch(items: seq<Item>, matches: Item -> bool): Option<Item> {
    if items == [] then None
    else if matches(items[0]) then Some(items[0])
    else FirstMatch(items[1..], matches)
  }

  lemma {:induction false} FirstMatchMeaning(items: seq<Item>, matches: Item -> bool)
    ensures match FirstMatch(items, matches)
      case Some(x) =>
        exists k :: 0 <= k < |items| && items[k] == x && matches(x) && forall j :: 0 <= j < k ==> !matches(items[j])
      case None => forall k :: 0 <= k < |items| ==> !matches(items[k])
  {
    if items != [] {
      if matches(items[0]) {
        assert items[0] == items[0] && matches(items[0]);
      } else {
        FirstMatchMeaning(items[1..], matches);
        if FirstMatch(items, matches).Some? {
          var rest, x := items[1..], FirstMatch(items, matches).value;
          var k :| 0 <= k < |rest| && rest[k] == x && matches(x) && forall j :: 0 <= j < k ==> !matches(rest[j]);
          assert items[k + 1] == x;
          forall j | 0 <= j < k + 1 ensures !matches(items[j]) {
            if j > 0 {
              assert items[j] == rest[j - 1];
            }
          }
        } else {
          forall k | 0 <= k < |items| ensures !matches(items[k]) {
            if k > 0 {
              assert items[k] == items[1..][k - 1];
            }
          }
        }
      }
    }
  }

  lemma {:induction false} FirstMatchConcat(a: seq<Item>, b: seq<Item>, matches: Item -> bool)
    ensures FirstMatch(a + b, matches)
         == if FirstMatch(a, matches).Some? then FirstMatch(a, matches) else FirstMatch(b, matches)
  {
    if a == [] {
      assert a + b == b;
    } else {
      assert (a + b)[0] == a[0] && (a + b)[1..] == a[1..] + b;
      FirstMatchConcat(a[1..], b, matches);
    }
  }

  /** The result of a linear search over what the pages hold. */
  function LinearSearch(all: (seq<Item>, End), matches: Item -> bool, listCode: string, findCode: string): Search {
    match FirstMatch(all.0, matches)
    case Some(x) => Found(x.id)
    case None => Failed(if all.1 == ListFailed then listCode else findCode)
  }

  // ---- The search of the source ----

  /** The page at `start` ends the search: it has a match, or it leads nowhere. */
  predicate Stops(fetch: string -> Page, matches: Item -> bool, start: string) {
    !LeadsOn(fetch, start) || FirstMatch(fetch(start).items, matches).Some?
  }

  /** The search comes to such a page, k cursors after `start` or before. */
  ghost predicate StopsBy(fetch: string -> Page, matches: Item -> bool, start: string, k: nat) {
    exists j: nat :: j <= k && Stops(fetch, matches, Follow(fetch, start, j))
  }

  lemma StopsLater(fetch: string -> Page, matches: Item -> bool, start: string, k: nat)
    requires StopsBy(fetch, matches, start, k) && !Stops(fetch, matches, start)
    ensures k > 0 && StopsBy(fetch, matches, fetch(start).next.start, k - 1)
  {
    var j: nat :| j <= k && Stops(fetch, matches, Follow(fetch, start, j));
    assert j > 0 && Stops(fetch, matches, Follow(fetch, fetch(start).next.start, j - 1));
  }

  /** A page with a match decides the search; a page without one leaves it to the pages after. */
  lemma SearchStep(fetch: string -> Page, start: string, k: nat, matches: Item -> bool,
                   listCode: string, findCode: string)
    requires fetch(start).Page?
    ensures var page := fetch(start);
      var here := LinearSearch(Walk(fetch, start, k), matches, listCode, findCode);
      match FirstMatch(page.items, matches)
      case Some(x) => here == Found(x.id)
      case None =>
        if !LeadsOn(fetch, start) then here == Failed(findCode)
        else k > 0 ==> here == LinearSearch(Walk(fetch, page.next.start, k - 1), matches, listCode, findCode)
  {
    if LeadsOn(fetch, start) && k > 0 {
      FirstMatchConcat(fetch(start).items, Walk(fetch, fetch(start).next.start, k - 1).0, matches);
    }
  }

  /** How far the search is after some passes of its loop. */
  datatype Progress = At(start: string) | Ended(r: Search)

  /** One pass of the loop. */
  function Pass(fetch: string -> Page, matches: Item -> bool, listCode: string, findCode: string,
                start: string): Progress {
    match fetch(start)
    case ListError => Ended(Failed(listCode))
    case NilList => Ended(Failed(listCode))
    case Page(items, next) =>
      match FirstMatch(items, matches)
      case Some(x) => Ended(Found(x.id))
      case None => if LeadsOn(fetch, start) then At(next.start) else Ended(Failed(findCode))
  }

  function Passes(fetch: string -> Page, matches: Item -> bool, listCode: string, findCode: string,
                  start: string, k: nat): Progress
    decreases k
  {
    if k == 0 then At(start)
    else
      var p := Pass(fetch, matches, listCode, findCode, start);
      if p.Ended? then p else Passes(fetch, matches, listCode, findCode, p.start, k - 1)
  }

  /** The loop from `start` has ended after k + 1 passes iff it has come to a page that stops it by
      then, and then its result is the linear search of the pages up to there. */
  lemma {:induction false} PassesSearch(fetch: string -> Page, matches: Item -> bool, listCode: string,
                                        findCode: string, start: string, k: nat)
    ensures var p := Passes(fetch, matches, listCode, findCode, start, k + 1);
      && (p.Ended? <==> StopsBy(fetch, matches, start, k))
      && (p.Ended? ==> p.r == LinearSearch(Walk(fetch, start, k), matches, listCode, findCode))
    decreases k
  {
    assert Follow(fetch, start, 0) == start;
    assert Stops(fetch, matches, start) ==> StopsBy(fetch, matches, start, k);
    if fetch(start).Page? {
      SearchStep(fetch, start, k, matches, listCode, findCode);
    }
    if !Stops(fetch, matches, start) {
      var next := fetch(start).next.start;
      assert Pass(fetch, matches, listCode, findCode, start) == At(next);
      if k > 0 {
        PassesSearch(fetch, matches, listCode, findCode, next, k - 1);
        if StopsBy(fetch, matches, next, k - 1) {
          var j: nat :| j <= k - 1 && Stops(fetch, matches, Follow(fetch, next, j));
          assert Follow(fetch, start, j + 1) == Follow(fetch, next, j);
        }
      }
      if StopsBy(fetch, matches, start, k) {
        StopsLater(fetch, matches, start, k);
      }
    }
  }

  /** The item at index i is the first that matches. */
  ghost predicate FirstAt(items: seq<Item>, matches: Item -> bool, i: nat) {
    i < |items| && matches(items[i]) && forall j :: 0 <= j < i ==> !matches(items[j])
  }

  ghost predicate NoMatch(items: seq<Item>, matches: Item -> bool) {
    forall j :: 0 <= j < |items| ==> !matches(items[j])
  }

  /** The page at this cursor has no match and names a next page. */
  ghost predicate PassedBy(p: Page, matches: Item -> bool) {
    p.Page? && NoMatch(p.items, matches) && p.next.Cursor? && p.next.start != ""
  }

  /** This page gives the search its result: the ID of its first match; failing that, the code for
      a failed listing if it is no page, and the code for nothing found if it is one. */
  ghost predicate Decides(p: Page, matches: Item -> bool, listCode: string, findCode: string, r: Search) {
    && (!p.Page? ==> r == Failed(listCode))
    && (p.Page? && NoMatch(p.items, matches) ==> r == Failed(findCode))
    && (p.Page? ==> forall i: nat :: FirstAt(p.items, matches, i) ==> r == Found(p.items[i].id))
  }

  /** The k pages before are passed by, the one k cursors after `start` is not. */
  ghost predicate StopsFirstAt(fetch: string -> Page, matches: Item -> bool, start: string, k: nat) {
    && (forall j: nat :: j < k ==> PassedBy(fetch(Follow(fetch, start, j)), matches))
    && !PassedBy(fetch(Follow(fetch, start, k)), matches)
  }

  /** The first page that is not passed by decides, and the search ends there. */
  lemma {:induction false} FirstStopDecides(fetch: string -> Page, matches: Item -> bool, listCode: string,
                                            findCode: string, start: string, k: nat)
    requires StopsFirstAt(fetch, matches, start, k)
    ensures StopsBy(fetch, matches, start, k)
    ensures Decides(fetch(Follow(fetch, start, k)), matches, listCode, findCode,
                    LinearSearch(Walk(fetch, start, k), matches, listCode, findCode))
    decreases k
  {
    var here := fetch(start);
    assert Follow(fetch, start, 0) == start;
    if here.Page? {
      FirstMatchMeaning(here.items, matches);
      SearchStep(fetch, start, k, matches, listCode, findCode);
    }
    if k == 0 {
      assert Stops(fetch, matches, Follow(fetch, start, 0));
    } else {
      assert PassedBy(here, matches);
      var next := here.next.start;
      forall j: nat | j < k - 1 ensures PassedBy(fetch(Follow(fetch, next, j)), matches) {
        assert Follow(fetch, start, j + 1) == Follow(fetch, next, j);
      }
      FirstStopDecides(fetch, matches, listCode, findCode, next, k - 1);
      var j: nat :| j <= k - 1 && Stops(fetch, matches, Follow(fetch, next, j));
      assert Follow(fetch, start, j + 1) == Follow(fetch, next, j);
    }
  }

  /** The search ends: some page that the cursors lead to from the first one stops it. */
  ghost predicate Ends(fetch: string -> Page, matches: Item -> bool) {
    exists k: nat :: StopsBy(fetch, matches, "", k)
  }

  /** Exactly when the loop ends: after some number of passes it has, if and only if a page it can
      reach has a match or leads nowhere. */
  lemma SearchEndsExactly(fetch: string -> Page, matches: Item -> bool, listCode: string, findCode: string)
    ensures (exists k: nat :: Passes(fetch, matches, listCode, findCode, "", k).Ended?) <==> Ends(fetch, matches)
  {
    if exists k: nat :: Passes(fetch, matches, listCode, findCode, "", k).Ended? {
      var k: nat :| Passes(fetch, matches, listCode, findCode, "", k).Ended?;
      assert k > 0;
      PassesSearch(fetch, matches, listCode, findCode, "", k - 1);
    }
    if Ends(fetch, matches) {
      var k: nat :| StopsBy(fetch, matches, "", k);
      PassesSearch(fetch, matches, listCode, findCode, "", k);
    }
  }

  lemma {:induction false} FollowConcat(fetch: string -> Page, start: string, i: nat, j: nat)
    ensures Follow(fetch, start, i + j) == Follow(fetch, Follow(fetch, start, i), j)
    decreases i
  {
    if i > 0 && LeadsOn(fetch, start) {
      FollowConcat(fetch, fetch(start).next.start, i - 1, j);
    }
  }

  /** Cursors that come back to where they were: without a match on the way the loop never ends. */
  lemma CycleNeverEnds(fetch: string -> Page, matches: Item -> bool, i: nat, j: nat)
    requires i < j && Follow(fetch, "", i) == Follow(fetch, "", j)
    requires forall k: nat :: k < j ==> !Stops(fetch, matches, Follow(fetch, "", k))
    ensures !Ends(fetch, matches)
  {
    forall k: nat ensures !Stops(fetch, matches, Follow(fetch, "", k)) {
      InCycle(fetch, i, j, k);
    }
  }

  lemma {:induction false} InCycle(fetch: string -> Page, i: nat, j: nat, k: nat)
    requires i < j && Follow(fetch, "", i) == Follow(fetch, "", j)
    ensures exists m: nat :: m < j && Follow(fetch, "", k) == Follow(fetch, "", m)
  {
    if k >= j {
      FollowConcat(fetch, "", j, k - j);
      FollowConcat(fetch, "", i, k - j);
      InCycle(fetch, i, j, i + (k - j));
    }
  }

  /** The loop of getSubnetByZoneAndSubnetID and getSecurityGroupByVPCAndSecurityGroupName. Where
      it ends, it ends with the linear search of the pages up to the one that stops it, or of any
      number of pages more. */
  method SearchPages(fetch: string -> Page, matches: Item -> bool, listCode: string, findCode: string)
      returns (r: Search)
    requires Ends(fetch, matches)
    ensures forall k: nat :: StopsBy(fetch, matches, "", k) ==>
      r == LinearSearch(Walk(fetch, "", k), matches, listCode, findCode)
  {
    ghost var last: nat :| StopsBy(fetch, matches, "", last);
    PassesSearch(fetch, matches, listCode, findCode, "", last);
    ghost var goal := Passes(fetch, matches, listCode, findCode, "", last + 1);
    forall k: nat | StopsBy(fetch, matches, "", k)
      ensures goal == Ended(LinearSearch(Walk(fetch, "", k), matches, listCode, findCode))
    {
      PassesSearch(fetch, matches, listCode, findCode, "", k);
      if k <= last {
        EndedStays(fetch, matches, listCode, findCode, "", k + 1, last + 1);
      } else {
        EndedStays(fetch, matches, listCode, findCode, "", last + 1, k + 1);
      }
    }
    var start := "";
    ghost var left: nat := last + 1;
    while true
      invariant Passes(fetch, matches, listCode, findCode, start, left) == goal
      decreases left
    {
      left := left - 1;
      match fetch(start) {
        case ListError => return Failed(listCode);
        case NilList => return Failed(listCode);
        case Page(items, next) =>
          for k := 0 to |items|
            invariant FirstMatch(items, matches) == FirstMatch(items[k..], matches)
          {
            if matches(items[k]) {
              return Found(items[k].id);
            }
          }
          match next {
            case Last => break;
            case Unparsable => return Failed(findCode);
            case Cursor(s) =>
              if s == "" {
                return Failed(findCode);
              }
              start := s;
          }
      }
    }
    return Failed(findCode);
  }

  /** The result of the loop, on the pages alone. */
  lemma ResultIsDecided(fetch: string -> Page, matches: Item -> bool, listCode: string, findCode: string, r: Search)
    requires forall k: nat :: StopsBy(fetch, matches, "", k) ==>
      r == LinearSearch(Walk(fetch, "", k), matches, listCode, findCode)
    ensures forall k: nat :: StopsFirstAt(fetch, matches, "", k) ==>
      Decides(fetch(Follow(fetch, "", k)), matches, listCode, findCode, r)
  {
    forall k: nat | StopsFirstAt(fetch, matches, "", k)
      ensures Decides(fetch(Follow(fetch, "", k)), matches, listCode, findCode, r)
    {
      FirstStopDecides(fetch, matches, listCode, findCode, "", k);
    }
  }

  lemma {:induction false} EndedStays(fetch: string -> Page, matches: Item -> bool, listCode: string,
                                      findCode: string, start: string, k: nat, m: nat)
    requires k <= m && Passes(fetch, matches, listCode, findCode, start, k).Ended?
    ensures Passes(fetch, matches, listCode, findCode, start, m)
         == Passes(fetch, matches, listCode, findCode, start, k)
    decreases k
  {
    var p := Pass(fetch, matches, listCode, findCode, start);
    if p.At? {
      EndedStays(fetch, matches, listCode, findCode, p.start, k - 1, m - 1);
    }
  }

  // ---- A backend that splits a list into pages ----

  function Flatten<T>(pages: seq<seq<T>>): seq<T> {
    if pages == [] then [] else pages[0] + Flatten(pages[1..])
  }

  /** Pages with one non-empty cursor, used once, for each page after the first. */
  ghost predicate ValidSplit<T>(pages: seq<seq<T>>, cursors: seq<string>) {
    && |pages| == |cursors| + 1
    && (forall k :: 0 <= k < |cursors| ==> cursors[k] != "")
    && (forall j, k :: 0 <= j < k < |cursors| ==> cursors[j] != cursors[k])
  }

  /** Number of the page at a cursor: 0 for "", |pages| for an unknown cursor. */
  function PageAt(cursors: seq<string>, start: string): (n: nat)
    ensures n <= |cursors| + 1
    ensures 1 <= n <= |cursors| ==> cursors[n - 1] == start
    ensures start != "" && n == |cursors| + 1 ==> start !in cursors
  {
    if start == "" then 0 else 1 + IndexIn(cursors, start)
  }

  function IndexIn(cursors: seq<string>, start: string): (k: nat)
    ensures k <= |cursors|
    ensures k < |cursors| ==> cursors[k] == start
    ensures k == |cursors| ==> start !in cursors
  {
    if cursors == [] then 0
    else if cursors[0] == start then 0
    else 1 + IndexIn(cursors[1..], start)
  }

  /** The backend serving this split. */
  function Serve(pages: seq<seq<Item>>, cursors: seq<string>): string -> Page
    requires |pages| == |cursors| + 1
  {
    (start: string) =>
      var n := PageAt(cursors, start);
      if n >= |pages| then ListError
      else Page(pages[n], if n < |cursors| then Cursor(cursors[n]) else Last)
  }

  lemma CursorFindsPage<T>(pages: seq<seq<T>>, cursors: seq<string>, n: nat)
    requires ValidSplit(pages, cursors) && n < |cursors|
    ensures PageAt(cursors, cursors[n]) == n + 1
  {
    var m := PageAt(cursors, cursors[n]);
    assert cursors[n] in cursors;
    assert 1 <= m <= |cursors| && cursors[m - 1] == cursors[n];
  }

  /** Walking the pages of any split gives the whole list, each item once and in order. */
  lemma {:induction false} WalkIsWholeList(pages: seq<seq<Item>>, cursors: seq<string>, start: string, k: nat)
    requires ValidSplit(pages, cursors) && PageAt(cursors, start) < |pages| <= PageAt(cursors, start) + k + 1
    ensures Walk(Serve(pages, cursors), start, k) == (Flatten(pages[PageAt(cursors, start)..]), Complete)
    ensures !LeadsOn(Serve(pages, cursors), Follow(Serve(pages, cursors), start, k))
    decreases k
  {
    var n := PageAt(cursors, start);
    assert pages[n..][0] == pages[n] && pages[n..][1..] == pages[n + 1..];
    if n == |cursors| {
      assert pages[n] + [] == pages[n];
    } else {
      CursorFindsPage(pages, cursors, n);
      WalkIsWholeList(pages, cursors, cursors[n], k - 1);
      assert LeadsOn(Serve(pages, cursors), start);
    }
  }

  /** However a list is split into pages, the paged search ends, and any walk long enough for it is
      a linear search of the list. */
  lemma PagedSearchIsLinear(pages: seq<seq<Item>>, cursors: seq<string>, matches: Item -> bool,
                            listCode: string, findCode: string)
    requires ValidSplit(pages, cursors)
    ensures StopsBy(Serve(pages, cursors), matches, "", |cursors|)
    ensures LinearSearch(Walk(Serve(pages, cursors), "", |cursors|), matches, listCode, findCode)
         == match FirstMatch(Flatten(pages), matches)
            case Some(x) => Found(x.id)
            case None => Failed(findCode)
  {
    WalkIsWholeList(pages, cursors, "", |cursors|);
    assert Stops(Serve(pages, cursors), matches, Follow(Serve(pages, cursors), "", |cursors|));
    assert pages[0..] == pages;
  }

  // ---- The two searches ----

  /** The subnet test of the source: the ID occurs somewhere in the comma-separated list. */
  function InSubnetList(subnetIDList: string): Item -> bool {
    (x: Item) => Contains(subnetIDList, x.id)
  }

  function HasName(name: string): Item -> bool {
    (x: Item) => EqualFold(name, x.name)
  }

  /** For IDs of one length and without commas the substring test is membership. */
  lemma SubstringTestIsMembership(ids: seq<string>, id: string)
    requires id != "" && ',' !in id
    requires forall k :: 0 <= k < |ids| ==> |ids[k]| == |id|
    ensures Contains(Join(ids), id) <==> id in ids
  {
    OccursInJoinIffInElement(ids, id);
    forall k | 0 <= k < |ids| ensures Contains(ids[k], id) <==> ids[k] == id {
      if Contains(ids[k], id) {
        var i :| 0 <= i <= |ids[k]| && OccursAt(ids[k], id, i);
        assert ids[k][0..|id|] == ids[k];
      }
      if ids[k] == id {
        assert OccursAt(ids[k], id, 0);
      }
    }
  }

  function HasIdIn(ids: seq<string>): Item -> bool {
    (x: Item) => x.id in ids
  }

  /** So, when all subnet IDs have one length, the subnet search returns the first subnet of the
      whole listing that is in the cluster's list. */
  lemma {:induction false} SubnetSearchIsMembershipSearch(ids: seq<string>, items: seq<Item>, length: nat)
    requires length > 0 && forall k :: 0 <= k < |ids| ==> |ids[k]| == length
    requires forall k :: 0 <= k < |items| ==> |items[k].id| == length && ',' !in items[k].id
    ensures FirstMatch(items, InSubnetList(Join(ids))) == FirstMatch(items, HasIdIn(ids))
  {
    if items != [] {
      SubstringTestIsMembership(ids, items[0].id);
      assert HasIdIn(ids)(items[0]) == (items[0].id in ids);
      assert InSubnetList(Join(ids))(items[0]) == Contains(Join(ids), items[0].id);
      SubnetSearchIsMembershipSearch(ids, items[1..], length);
    }
  }

  /** The result of looking for a name in a list: the ID of the first item with that name, letter
      case aside, or the code for nothing found iff there is none. */
  ghost predicate FoundByName(items: seq<Item>, name: string, r: Search) {
    && (r == Failed("SecurityGroupFindFailed")
        <==> forall i :: 0 <= i < |items| ==> !SameLetters(name, items[i].name))
    && forall i ::
         (0 <= i < |items| && SameLetters(name, items[i].name)
          && forall j :: 0 <= j < i ==> !SameLetters(name, items[j].name)) ==> r == Found(items[i].id)
  }

  /** The result of looking for a subnet of a list. */
  ghost predicate FoundInList(items: seq<Item>, ids: seq<string>, r: Search) {
    && (r == Failed("SubnetFindFailed") <==> forall i :: 0 <= i < |items| ==> items[i].id !in ids)
    && forall i :: 0 <= i < |items| && items[i].id in ids && (forall j :: 0 <= j < i ==> items[j].id !in ids)
         ==> r == Found(items[i].id)
  }

  /** IDs of one positive length, the listed ones without commas. */
  ghost predicate PlainIDs(items: seq<Item>, ids: seq<string>, length: nat) {
    && length > 0 && (forall k :: 0 <= k < |ids| ==> |ids[k]| == length)
    && forall k :: 0 <= k < |items| ==> |items[k].id| == length && ',' !in items[k].id
  }

  lemma SecurityGroupOfSplit(pages: seq<seq<Item>>, cursors: seq<string>, name: string)
    requires ValidSplit(pages, cursors)
    ensures StopsBy(Serve(pages, cursors), HasName(name), "", |cursors|)
    ensures FoundByName(Flatten(pages), name,
                        LinearSearch(Walk(Serve(pages, cursors), "", |cursors|), HasName(name),
                                     "SecurityGroupsListFailed", "SecurityGroupFindFailed"))
  {
    hide EqualFold, SameLetters, Flatten, Walk, Serve;
    var items := Flatten(pages);
    PagedSearchIsLinear(pages, cursors, HasName(name), "SecurityGroupsListFailed", "SecurityGroupFindFailed");
    FirstMatchMeaning(items, HasName(name));
    forall i | 0 <= i < |items| ensures HasName(name)(items[i]) == SameLetters(name, items[i].name) {
      EqualFoldMeaning(name, items[i].name);
    }
  }

  lemma SubnetOfSplit(pages: seq<seq<Item>>, cursors: seq<string>, ids: seq<string>, length: nat)
    requires ValidSplit(pages, cursors) && PlainIDs(Flatten(pages), ids, length)
    ensures StopsBy(Serve(pages, cursors), InSubnetList(Join(ids)), "", |cursors|)
    ensures FoundInList(Flatten(pages), ids,
                        LinearSearch(Walk(Serve(pages, cursors), "", |cursors|), InSubnetList(Join(ids)),
                                     "SubnetsListFailed", "SubnetFindFailed"))
  {
    hide Flatten, Walk, Serve, Join, Contains;
    var items, matches := Flatten(pages), InSubnetList(Join(ids));
    PagedSearchIsLinear(pages, cursors, matches, "SubnetsListFailed", "SubnetFindFailed");
    FirstMatchMeaning(items, matches);
    forall i | 0 <= i < |items| ensures matches(items[i]) == (items[i].id in ids) {
      SubstringTestIsMembership(ids, items[i].id);
    }
  }

  method GetSubnet(fetch: string -> Page, subnetIDList: string) returns (r: Search)
    requires Ends(fetch, InSubnetList(subnetIDList))
    ensures forall k: nat :: StopsBy(fetch, InSubnetList(subnetIDList), "", k) ==>
      r == LinearSearch(Walk(fetch, "", k), InSubnetList(subnetIDList), "SubnetsListFailed", "SubnetFindFailed")
    ensures forall k: nat :: StopsFirstAt(fetch, InSubnetList(subnetIDList), "", k) ==>
      Decides(fetch(Follow(fetch, "", k)), InSubnetList(subnetIDList), "SubnetsListFailed", "SubnetFindFailed", r)
    ensures forall pages, cursors, ids, length: nat ::
      (ValidSplit(pages, cursors) && PlainIDs(Flatten(pages), ids, length)
       && fetch == Serve(pages, cursors) && subnetIDList == Join(ids)) ==> FoundInList(Flatten(pages), ids, r)
  {
    r := SearchPages(fetch, InSubnetList(subnetIDList), "SubnetsListFailed", "SubnetFindFailed");
    ResultIsDecided(fetch, InSubnetList(subnetIDList), "SubnetsListFailed", "SubnetFindFailed", r);
    forall pages, cursors, ids, length: nat
      | ValidSplit(pages, cursors) && PlainIDs(Flatten(pages), ids, length)
        && fetch == Serve(pages, cursors) && subnetIDList == Join(ids)
      ensures FoundInList(Flatten(pages), ids, r)
    {
      SubnetOfSplit(pages, cursors, ids, length);
    }
  }

  method GetSecurityGroup(fetch: string -> Page, name: string) returns (r: Search)
    requires Ends(fetch, HasName(name))
    ensures forall k: nat :: StopsBy(fetch, HasName(name), "", k) ==>
      r == LinearSearch(Walk(fetch, "", k), HasName(name), "SecurityGroupsListFailed", "SecurityGroupFindFailed")
    ensures forall k: nat :: StopsFirstAt(fetch, HasName(name), "", k) ==>
      Decides(fetch(Follow(fetch, "", k)), HasName(name), "SecurityGroupsListFailed", "SecurityGroupFindFailed", r)
    ensures forall pages, cursors :: ValidSplit(pages, cursors) && fetch == Serve(pages, cursors) ==>
      FoundByName(Flatten(pages), name, r)
  {
    r := SearchPages(fetch, HasName(name), "SecurityGroupsListFailed", "SecurityGroupFindFailed");
    ResultIsDecided(fetch, HasName(name), "SecurityGroupsListFailed", "SecurityGroupFindFailed", r);
    forall pages, cursors | ValidSplit(pages, cursors) && fetch == Serve(pages, cursors)
      ensures FoundByName(Flatten(pages), name, r)
    {
      SecurityGroupOfSplit(pages, cursors, name);
    }
  }

  /** In general it is more than membership; the two agree on an ID without commas exactly when
      the ID is in the list or is no part of any ID in it. */
  lemma SubstringTestExact(ids: seq<string>, id: string)
    requires id != "" && ',' !in id
    ensures (Contains(Join(ids), id) <==> id in ids)
      <==> (id in ids || forall k :: 0 <= k < |ids| ==> !Contains(ids[k], id))
  {
    OccursInJoinIffInElement(ids, id);
    if id in ids {
      var k :| 0 <= k < |ids| && ids[k] == id;
      assert OccursAt(ids[k], id, 0);
    }
  }

  /** An ID that is part of a listed one is taken for it. */
  lemma SubstringTestCanBeWrong()
    ensures Contains(Join(["0717-abcd"]), "0717-ab") && "0717-ab" !in ["0717-abcd"]
  {
    assert OccursAt("0717-abcd", "0717-ab", 0);
  }
}
