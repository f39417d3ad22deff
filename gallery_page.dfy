// The main gallery page: its page/search/modal state, the pagination bar
// it renders, the comment delete button and the comment it sends.

module GalleryPage {
  import opened Wrappers
  import opened JsText
  import opened Http
  import opened Store
  import opened ApiClient
  import opened AuthSession
  import InteractionEndpoints

  // ---------------------------------------------------------------------------
  // Pagination
  // ---------------------------------------------------------------------------

  /**
   * One element of the pagination bar: the Previous and Next buttons with
   * the page they load, a numbered button, or an ellipsis standing for the
   * page number `at` it replaces.
   */
  datatype PageItem =
    | Prev(target: int, search: string, disabled: bool)
    | PageButton(n: int, search: string, active: bool)
    | Gap(at: int)
    | Next(target: int, search: string, disabled: bool)

  /** The page number a numbered button or an ellipsis stands at. */
  function Pos(item: PageItem): int
    requires item.PageButton? || item.Gap?
  {
    if item.PageButton? then item.n else item.at
  }

  /** Page i gets a button: the first, the last, or within two of the current page. */
  predicate ButtonAt(i: int, page: int, total: int) {
    i == 1 || i == total || (page - 2 <= i && i <= page + 2)
  }

  /** What the loop body emits for page i. */
  function Slot(i: int, page: int, total: int, search: string): seq<PageItem> {
    if ButtonAt(i, page, total) then [PageButton(i, search, i == page)]
    else if i == page - 3 || i == page + 3 then [Gap(i)]
    else []
  }

  /** What the loop emits for pages 1 to n. */
  function Slots(page: int, total: int, search: string, n: int): seq<PageItem>
    decreases n
  {
    if n < 1 then [] else Slots(page, total, search, n - 1) + Slot(n, page, total, search)
  }

  /** The bar `displayPagination` renders: nothing for a single page, else Previous, the pages, Next. */
  function Pagination(page: int, total: int, search: string): seq<PageItem> {
    if total <= 1 then []
    else [Prev(page - 1, search, page == 1)] + Slots(page, total, search, total) + [Next(page + 1, search, page == total)]
  }

  /**
   * The loop's output for pages 1 to n: numbered buttons and ellipses at
   * increasing positions within 1..n, each button where and only where
   * ButtonAt holds (active exactly on the current page), each ellipsis at
   * page-3 or page+3 where no button is.
   */
  lemma {:induction false} SlotsFacts(page: int, total: int, search: string, n: int)
    ensures var s := Slots(page, total, search, n);
      (forall k :: 0 <= k < |s| ==> (s[k].PageButton? || s[k].Gap?) && 1 <= Pos(s[k]) <= n) &&
      (forall k :: 0 <= k < |s| && s[k].PageButton? ==>
        ButtonAt(s[k].n, page, total) && s[k].active == (s[k].n == page) && s[k].search == search) &&
      (forall k :: 0 <= k < |s| && s[k].Gap? ==>
        !ButtonAt(s[k].at, page, total) && (s[k].at == page - 3 || s[k].at == page + 3)) &&
      (forall k, l :: 0 <= k < l < |s| ==> Pos(s[k]) < Pos(s[l])) &&
      (forall i :: 1 <= i <= n && ButtonAt(i, page, total) ==>
        exists k :: 0 <= k < |s| && s[k] == PageButton(i, search, i == page))
  {
    if n >= 1 {
      SlotsFacts(page, total, search, n - 1);
      var p := Slots(page, total, search, n - 1);
      var s := Slots(page, total, search, n);
      var last := Slot(n, page, total, search);
      assert s == p + last;
      assert |last| <= 1;
      forall k | 0 <= k < |s|
        ensures (s[k].PageButton? || s[k].Gap?) && 1 <= Pos(s[k]) <= n
        ensures k < |p| ==> s[k] == p[k]
        ensures k >= |p| ==> s[k] == last[0] && Pos(s[k]) == n
      {
        if k < |p| {
          assert s[k] == p[k];
        } else {
          assert s[k] == last[0];
        }
      }
      forall i | 1 <= i <= n && ButtonAt(i, page, total)
        ensures exists k :: 0 <= k < |s| && s[k] == PageButton(i, search, i == page)
      {
        if i == n {
          assert s[|p|] == PageButton(i, search, i == page);
        } else {
          var k :| 0 <= k < |p| && p[k] == PageButton(i, search, i == page);
          assert s[k] == p[k];
        }
      }
    }
  }

  /** The bar of several pages is Previous, then the loop's output, then Next. */
  lemma PaginationFrame(page: int, total: int, search: string)
    requires total > 1
    ensures var items := Pagination(page, total, search);
      var s := Slots(page, total, search, total);
      |items| == |s| + 2 &&
      (forall k :: 1 <= k <= |s| ==> items[k] == s[k - 1])
  {
  }

  /**
   * Nothing is rendered for at most one page; otherwise the bar opens with
   * Previous, disabled exactly on page 1, and closes with Next, disabled
   * exactly on the last page, and every target keeps the current search.
   */
  lemma PaginationEnds(page: int, total: int, search: string)
    ensures var items := Pagination(page, total, search);
      (items == [] <==> total <= 1) &&
      (total > 1 ==>
        |items| >= 2 &&
        items[0] == Prev(page - 1, search, page == 1) &&
        items[|items| - 1] == Next(page + 1, search, page == total))
  {
  }

  /**
   * Between Previous and Next: page i has a numbered button exactly when it
   * is the first, the last or within two of the current one; buttons are in
   * strictly increasing order and carry the current search.
   */
  lemma PaginationButtons(page: int, total: int, search: string)
    requires total > 1
    ensures var items := Pagination(page, total, search);
      (forall k :: 0 <= k < |items| && items[k].PageButton? ==>
        1 <= items[k].n <= total && ButtonAt(items[k].n, page, total) && items[k].search == search) &&
      (forall i :: 1 <= i <= total && ButtonAt(i, page, total) ==>
        exists k :: 0 <= k < |items| && items[k] == PageButton(i, search, i == page)) &&
      (forall k, l :: 0 <= k < l < |items| && items[k].PageButton? && items[l].PageButton? ==> items[k].n < items[l].n)
  {
    var items := Pagination(page, total, search);
    var s := Slots(page, total, search, total);
    SlotsFacts(page, total, search, total);
    PaginationFrame(page, total, search);
    forall i | 1 <= i <= total && ButtonAt(i, page, total)
      ensures exists k :: 0 <= k < |items| && items[k] == PageButton(i, search, i == page)
    {
      var k :| 0 <= k < |s| && s[k] == PageButton(i, search, i == page);
      assert items[k + 1] == s[k];
    }
    forall k, l | 0 <= k < l < |items| && items[k].PageButton? && items[l].PageButton?
      ensures items[k].n < items[l].n
    {
      assert items[k] == s[k - 1] && items[l] == s[l - 1];
    }
  }

  /**
   * An ellipsis replaces only page-3 or page+3 and only where there is no
   * button; of two ellipses the first is page-3 and the second page+3, so
   * there are at most two.
   */
  lemma PaginationGaps(page: int, total: int, search: string)
    ensures var items := Pagination(page, total, search);
      (forall k :: 0 <= k < |items| && items[k].Gap? ==>
        !ButtonAt(items[k].at, page, total) && (items[k].at == page - 3 || items[k].at == page + 3)) &&
      (forall k, l :: 0 <= k < l < |items| && items[k].Gap? && items[l].Gap? ==>
        items[k].at == page - 3 && items[l].at == page + 3)
  {
    if total > 1 {
      var items := Pagination(page, total, search);
      var s := Slots(page, total, search, total);
      SlotsFacts(page, total, search, total);
      PaginationFrame(page, total, search);
      forall k, l | 0 <= k < l < |items| && items[k].Gap? && items[l].Gap?
        ensures items[k].at == page - 3 && items[l].at == page + 3
      {
        assert items[k] == s[k - 1] && items[l] == s[l - 1];
      }
    }
  }

  /** On a page within range exactly one button is active, the current page's. */
  lemma ExactlyOneActive(page: int, total: int, search: string)
    requires total > 1 && 1 <= page <= total
    ensures var items := Pagination(page, total, search);
      (exists k :: 0 <= k < |items| && items[k] == PageButton(page, search, true)) &&
      (forall k :: 0 <= k < |items| && items[k].PageButton? && items[k].active ==> items[k].n == page) &&
      (forall k, l ::
        0 <= k < |items| && 0 <= l < |items| &&
        items[k].PageButton? && items[k].active && items[l].PageButton? && items[l].active
        ==> k == l)
  {
    var items := Pagination(page, total, search);
    var s := Slots(page, total, search, total);
    SlotsFacts(page, total, search, total);
    PaginationFrame(page, total, search);
    assert ButtonAt(page, page, total);
    var j :| 0 <= j < |s| && s[j] == PageButton(page, search, true);
    assert items[j + 1] == s[j];
    forall k | 0 <= k < |items| && items[k].PageButton? && items[k].active
      ensures items[k].n == page
    {
      assert items[k] == s[k - 1];
    }
    forall k, l | 0 <= k < |items| && 0 <= l < |items| && items[k].PageButton? && items[k].active &&
        items[l].PageButton? && items[l].active
      ensures k == l
    {
      assert items[k] == s[k - 1] && items[l] == s[l - 1];
    }
  }

  // ---------------------------------------------------------------------------
  // Comments
  // ---------------------------------------------------------------------------

  /** An id from a response row as the page reads it: a missing column is undefined. */
  function IdFrom(v: Option<nat>): JsId {
    if v.Some? then Num(v.value) else Undefined
  }

  /** The id as a JSON body or query string gives it to the backend: only a number is one. */
  function SentId(v: JsId): Option<nat> {
    if v.Num? then Some(v.n) else None
  }

  /**
   * `canDelete`: a held profile that is strictly the comment's author or the
   * photo's owner, or is an admin.
   */
  predicate CanDelete(s: SessionState, commentUserId: JsId, ownerId: JsId) {
    s.currentUser.Holds? &&
    var u := s.currentUser.user;
    commentUserId == u.userId || ownerId == u.userId || u.role == AdminRole
  }

  /** The page's profile of a signed-in account as the backend stores it. */
  function SessionOf(t: Tables, id: UserId, links: Links): SessionState
    requires id in t.users
  {
    var u := Holds(FromView(ViewOf(id, t.users[id])));
    SessionState(u, u, links)
  }

  /**
   * The photo's owner sees a delete button on others' comments, yet neither
   * comment delete rule of the backend lets the owner delete them.
   */
  lemma OwnerButtonRefused(t: Tables, commentId: CommentId, ownerId: UserId, links: Links, window: bool)
    requires commentId in t.comments && ownerId in t.users
    requires t.comments[commentId].userId != ownerId && t.users[ownerId].role != AdminRole
    ensures CanDelete(SessionOf(t, ownerId, links), IdFrom(if window then Some(t.comments[commentId].userId) else None), Num(ownerId))
    ensures InteractionEndpoints.DeleteCommentByAuthor(t, commentId, Some(ownerId)).response.status == 403
    ensures InteractionEndpoints.DeleteCommentByAuthorOrAdmin(t, Some(commentId), Some(ownerId)).response.status == 403
  {
  }

  /**
   * Where the comment rows carry their author's id, every deletion the
   * author-or-admin rule grants is offered as a button.
   */
  lemma GrantedDeletionOffered(t: Tables, commentId: CommentId, userId: UserId, links: Links, ownerId: JsId)
    requires userId in t.users
    requires InteractionEndpoints.DeleteCommentByAuthorOrAdmin(t, Some(commentId), Some(userId)).response.status == 200
    ensures CanDelete(SessionOf(t, userId, links), IdFrom(Some(t.comments[commentId].userId)), ownerId)
  {
  }

  /**
   * Where the comment rows leave the author's id out, the author who neither
   * owns the photo nor is an admin gets no button, though the backend would
   * let them delete.
   */
  lemma AuthorUnseenWithoutId(t: Tables, commentId: CommentId, userId: UserId, links: Links, ownerId: JsId)
    requires commentId in t.comments && userId in t.users
    requires t.comments[commentId].userId == userId && t.users[userId].role != AdminRole && ownerId != Num(userId)
    ensures !CanDelete(SessionOf(t, userId, links), IdFrom(None), ownerId)
    ensures InteractionEndpoints.DeleteCommentByAuthorOrAdmin(t, Some(commentId), Some(userId)).response.status == 200
  {
  }

  /** The body and target of an addComment call. */
  datatype CommentRequest = CommentRequest(path: string, userId: JsId, text: string)

  /**
   * `submitComment`: nothing without a sign-in or with a blank text, nor when
   * the held user is undefined (reading its id throws); otherwise the trimmed
   * text for the open photo, as the held user.
   */
  function CommentRequestFor(s: SessionState, photoId: JsId, input: string): (req: Option<CommentRequest>)
    ensures req.Some? <==> s.RequireAuth() && Trim(input) != "" && s.currentUser.Holds?
    ensures req.Some? ==> req.value.path == AddCommentPath(photoId) && req.value.userId == s.currentUser.user.userId
    ensures req.Some? ==> req.value.text == Trim(input) && !Blank(req.value.text)
  {
    if !s.RequireAuth() then None
    else
      var text := Trim(input);
      if text == "" then None
      else if !s.currentUser.Holds? then None
      else Some(CommentRequest(AddCommentPath(photoId), s.currentUser.user.userId, text))
  }

  /**
   * A comment the page sends is never refused as blank by the text-only
   * rule, and the trimming rule stores it unchanged.
   */
  lemma SentCommentNotBlank(s: SessionState, photoId: JsId, input: string)
    requires CommentRequestFor(s, photoId, input).Some?
    ensures var text := CommentRequestFor(s, photoId, input).value.text;
      !InteractionEndpoints.TextMissing(Some(text)) && Trim(text) == text
  {
    TrimIdempotent(input);
  }

  /** An offline session sends a null userId, which the validated comment rule refuses with 400. */
  lemma OfflineCommentRefused(t: Tables, s: SessionState, photoId: nat, input: string, now: nat)
    requires CommentRequestFor(s, Num(photoId), input).Some?
    requires s.currentUser.user.userId == Null
    ensures var req := CommentRequestFor(s, Num(photoId), input).value;
      InteractionEndpoints.PostCommentValidated(t, Some(photoId), SentId(req.userId), Some(req.text), now).response.status == 400
  {
  }

  // ---------------------------------------------------------------------------
  // The page state
  // ---------------------------------------------------------------------------

  class Gallery {
    var currentPage: int
    var currentSearch: string
    var currentPhotoId: JsId
    var currentPhotoOwnerId: JsId

    constructor ()
      ensures currentPage == 1 && currentSearch == "" && currentPhotoId == Null && currentPhotoOwnerId == Null
    {
      currentPage := 1;
      currentSearch := "";
      currentPhotoId := Null;
      currentPhotoOwnerId := Null;
    }

    /** `loadPhotos`: records the page and the search, then asks for them. */
    method LoadPhotos(page: int, search: string) returns (query: PhotoQuery)
      modifies this
      ensures currentPage == page && currentSearch == search
      ensures currentPhotoId == old(currentPhotoId) && currentPhotoOwnerId == old(currentPhotoOwnerId)
      ensures query == GetPhotosQuery(page, search)
    {
      currentPage := page;
      currentSearch := search;
      query := GetPhotosQuery(page, search);
    }

    /** `searchPhotos` and the navbar search: always page 1, with the trimmed input. */
    method SearchPhotos(input: string) returns (query: PhotoQuery)
      modifies this
      ensures currentPage == 1 && currentSearch == Trim(input)
      ensures currentPhotoId == old(currentPhotoId) && currentPhotoOwnerId == old(currentPhotoOwnerId)
      ensures query == GetPhotosQuery(1, Trim(input))
    {
      var search := Trim(input);
      query := LoadPhotos(1, search);
    }

    /** `displayPagination` for the reply's page and page count, with the current search. */
    method DisplayPagination(page: int, totalPages: int) returns (items: seq<PageItem>)
      ensures items == Pagination(page, totalPages, currentSearch)
    {
      if totalPages <= 1 {
        return [];
      }
      items := [Prev(page - 1, currentSearch, page == 1)];
      var i := 1;
      while i <= totalPages
        invariant 1 <= i <= totalPages + 1
        invariant items == [Prev(page - 1, currentSearch, page == 1)] + Slots(page, totalPages, currentSearch, i - 1)
      {
        if i == 1 || i == totalPages || (i >= page - 2 && i <= page + 2) {
          items := items + [PageButton(i, currentSearch, i == page)];
        } else if i == page - 3 || i == page + 3 {
          items := items + [Gap(i)];
        }
        i := i + 1;
      }
      items := items + [Next(page + 1, currentSearch, page == totalPages)];
    }

    /**
     * `openPhotoModal`: the photo id is recorded at once; its owner only
     * when the detail arrives, and otherwise the previous owner stays.
     */
    method OpenPhotoModal(photoId: JsId, reply: Response)
      modifies this
      ensures currentPhotoId == photoId
      ensures currentPage == old(currentPage) && currentSearch == old(currentSearch)
      ensures match ApiRequest(reply)
        case Success(PhotoDetail(p, _)) => currentPhotoOwnerId == IdFrom(p.creatorId)
        case _ => currentPhotoOwnerId == old(currentPhotoOwnerId)
    {
      currentPhotoId := photoId;
      var data := ApiRequest(reply);
      if data.Success? && data.value.PhotoDetail? {
        currentPhotoOwnerId := IdFrom(data.value.photo.creatorId);
      }
    }

    /** `closePhotoModal`: no photo open and no owner. */
    method ClosePhotoModal()
      modifies this
      ensures currentPhotoId == Null && currentPhotoOwnerId == Null
      ensures currentPage == old(currentPage) && currentSearch == old(currentSearch)
    {
      currentPhotoId := Null;
      currentPhotoOwnerId := Null;
    }

    /** `submitComment` for the open photo. */
    method SubmitComment(session: SessionState, input: string) returns (request: Option<CommentRequest>)
      ensures request == CommentRequestFor(session, currentPhotoId, input)
    {
      if !session.RequireAuth() {
        return None;
      }
      var text := Trim(input);
      if text == "" {
        return None;
      }
      if !session.currentUser.Holds? {
        return None;
      }
      request := Some(CommentRequest(AddCommentPath(currentPhotoId), session.currentUser.user.userId, text));
    }
  }
}
