/**
 * Page arithmetic shared by the gallery in src/App.jsx (30 channels per
 * page) and the player's channel grid in src/pages/PlayerPage.jsx (10 per
 * page): `Math.ceil(length / perPage)` pages, the page shown is
 * `slice(page * perPage, (page + 1) * perPage)`, and the previous/next
 * buttons are disabled at the first and last page.
 */
module Pagination {

  const GalleryPerPage := 30
  const PlayerPerPage := 10

  function Min(a: int, b: int): int { if a <= b then a else b }

  /** `s.slice(start, end)` for non-negative bounds: both clamp to the length, and an empty result when `end <= start`. */
  function Slice<T>(s: seq<T>, start: nat, end: nat): seq<T> {
    var a := Min(start, |s|);
    var b := Min(end, |s|);
    if b <= a then [] else s[a..b]
  }

  /** `Math.ceil(length / perPage)` on non-negative integers. */
  function TotalPages(length: nat, perPage: nat): (pages: nat)
    requires perPage > 0
  {
    (length + perPage - 1) / perPage
  }

  /** The channels shown on page `p`. */
  function Page<T>(s: seq<T>, p: nat, perPage: nat): seq<T> {
    Slice(s, p * perPage, (p + 1) * perPage)
  }

  /** `disabled={currentPage === 0}`. */
  predicate PrevDisabled(p: int) { p == 0 }

  /** `disabled={currentPage >= totalPages - 1}`. */
  predicate NextDisabled(p: int, totalPages: int) { p >= totalPages - 1 }

  /** A click on the previous button: `p => p - 1`, ignored while the button is disabled. */
  function Prev(p: int): int { if PrevDisabled(p) then p else p - 1 }

  /** A click on the next button: `p => p + 1`, ignored while the button is disabled. */
  function Next(p: int, totalPages: int): int { if NextDisabled(p, totalPages) then p else p + 1 }

  /** The page count is the ceiling: enough pages for every item, and no page beyond the last item. */
  lemma TotalPagesIsCeiling(length: nat, perPage: nat)
    requires perPage > 0
    ensures TotalPages(length, perPage) * perPage >= length
    ensures TotalPages(length, perPage) > 0 ==> (TotalPages(length, perPage) - 1) * perPage < length
    ensures TotalPages(length, perPage) == 0 <==> length == 0
  {
    var n := TotalPages(length, perPage);
    var r := (length + perPage - 1) % perPage;
    assert n * perPage + r == length + perPage - 1;
  }

  /** Page `p` holds the items from `p * perPage` on, at most `perPage` of them, and none past the end. */
  lemma PageContents<T>(s: seq<T>, p: nat, perPage: nat)
    requires perPage > 0
    ensures |Page(s, p, perPage)| <= perPage
    ensures p * perPage >= |s| ==> Page(s, p, perPage) == []
    ensures p * perPage < |s| ==> |Page(s, p, perPage)| == Min(perPage, |s| - p * perPage)
    ensures forall k :: 0 <= k < |Page(s, p, perPage)| ==> Page(s, p, perPage)[k] == s[p * perPage + k]
  {
    assert (p + 1) * perPage == p * perPage + perPage;
  }

  /** The first `n` pages, one after the other. */
  function FirstPages<T>(s: seq<T>, n: nat, perPage: nat): seq<T> {
    if n == 0 then [] else FirstPages(s, n - 1, perPage) + Page(s, n - 1, perPage)
  }

  lemma {:induction false} FirstPagesArePrefix<T>(s: seq<T>, n: nat, perPage: nat)
    requires perPage > 0
    ensures FirstPages(s, n, perPage) == s[..Min(n * perPage, |s|)]
  {
    if n > 0 {
      FirstPagesArePrefix(s, n - 1, perPage);
      assert n * perPage == (n - 1) * perPage + perPage;
      var a := Min((n - 1) * perPage, |s|);
      var b := Min(n * perPage, |s|);
      assert s[..a] + s[a..b] == s[..b];
    }
  }

  /** The pages, in order, show every item exactly once. */
  lemma PagesCoverAll<T>(s: seq<T>, perPage: nat)
    requires perPage > 0
    ensures FirstPages(s, TotalPages(|s|, perPage), perPage) == s
  {
    TotalPagesIsCeiling(|s|, perPage);
    FirstPagesArePrefix(s, TotalPages(|s|, perPage), perPage);
  }

  /** A page in range, or page 0 of an empty list. */
  predicate PageInRange(p: int, totalPages: nat) {
    (0 <= p < totalPages) || (totalPages == 0 && p == 0)
  }

  /**
   * The buttons keep the page in range: from a page in range, either click
   * leads to a page in range, and a click that is not ignored moves by one.
   */
  lemma ClicksStayInRange(p: int, totalPages: nat)
    requires PageInRange(p, totalPages)
    ensures PageInRange(Prev(p), totalPages) && PageInRange(Next(p, totalPages), totalPages)
    ensures !PrevDisabled(p) ==> Prev(p) == p - 1 && p > 0
    ensures !NextDisabled(p, totalPages) ==> Next(p, totalPages) == p + 1 && p + 1 < totalPages
  {
  }

  /** From the first page, `k` clicks on next reach page `k`, for every page that exists. */
  lemma {:induction false} NextReachesEveryPage(k: nat, totalPages: nat)
    requires k < totalPages
    ensures NextTimes(k, totalPages) == k
  {
    if k > 0 {
      NextReachesEveryPage(k - 1, totalPages);
    }
  }

  /** The page after `k` clicks on next from page 0. */
  function NextTimes(k: nat, totalPages: int): int {
    if k == 0 then 0 else Next(NextTimes(k - 1, totalPages), totalPages)
  }

  /** The gallery shows its page controls only when there is more than one page. */
  lemma GalleryControlsNeedTwoPages(length: nat)
    ensures length > GalleryPerPage <==> TotalPages(length, GalleryPerPage) >= 2
  {
    TotalPagesIsCeiling(length, GalleryPerPage);
  }

  /**
   * The player's grid is handed the gallery's page index: a gallery page in
   * range is a non-empty grid page, and the grid never has fewer pages.
   */
  lemma SharedPageIndex(length: nat, p: nat)
    ensures TotalPages(length, GalleryPerPage) <= TotalPages(length, PlayerPerPage)
    ensures p < TotalPages(length, GalleryPerPage) ==> p * PlayerPerPage < length
  {
    TotalPagesIsCeiling(length, GalleryPerPage);
    TotalPagesIsCeiling(length, PlayerPerPage);
  }

  /**
   * The page index is shared, but the player's buttons bound it by the
   * player's page count only. Whenever the grid has more pages than the
   * gallery, clicks on the player's next button from page 0 reach a page
   * past the gallery's last page, where the gallery then shows nothing.
   */
  lemma {:induction false} PlayerLeavesGalleryRange<T>(s: seq<T>)
    requires TotalPages(|s|, GalleryPerPage) < TotalPages(|s|, PlayerPerPage)
    ensures var last := TotalPages(|s|, PlayerPerPage) - 1;
      && NextTimes(last, TotalPages(|s|, PlayerPerPage)) == last
      && !PageInRange(last, TotalPages(|s|, GalleryPerPage))
      && Page(s, last, GalleryPerPage) == []
  {
    var last := TotalPages(|s|, PlayerPerPage) - 1;
    NextReachesEveryPage(last, TotalPages(|s|, PlayerPerPage));
    TotalPagesIsCeiling(|s|, GalleryPerPage);
    TotalPagesIsCeiling(|s|, PlayerPerPage);
    assert last >= TotalPages(|s|, GalleryPerPage);
    assert last * GalleryPerPage >= TotalPages(|s|, GalleryPerPage) * GalleryPerPage;
    PageContents(s, last, GalleryPerPage);
  }

  /** With 65 channels the player reaches page 6 while the gallery has three pages. */
  lemma SixtyFiveChannelsSharedPage<T>(s: seq<T>)
    requires |s| == 65
    ensures NextTimes(6, TotalPages(|s|, PlayerPerPage)) == 6
    ensures TotalPages(|s|, GalleryPerPage) == 3 && Page(s, 6, GalleryPerPage) == []
  {
    PlayerLeavesGalleryRange(s);
  }

  /** 65 channels make three gallery pages of 30, 30 and 5, and seven player pages. */
  lemma SixtyFiveChannels<T>(s: seq<T>)
    requires |s| == 65
    ensures TotalPages(|s|, GalleryPerPage) == 3
    ensures |Page(s, 0, GalleryPerPage)| == 30 && |Page(s, 1, GalleryPerPage)| == 30 && |Page(s, 2, GalleryPerPage)| == 5
    ensures Page(s, 3, GalleryPerPage) == []
    ensures TotalPages(|s|, PlayerPerPage) == 7 && |Page(s, 6, PlayerPerPage)| == 5
  {
  }
}
