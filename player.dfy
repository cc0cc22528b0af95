/**
 * The channel grid of src/pages/PlayerPage.jsx: ten channels per page out of
 * the list it is handed, the page buttons that are always rendered, and the
 * card that is highlighted because its URL is the playing one.
 */
module Player {
  import opened M3u
  import opened Pagination

  /** `Math.ceil(allChannels.length / channelsPerPage)`. */
  function GridPages(all: seq<Channel>): nat {
    TotalPages(|all|, PlayerPerPage)
  }

  /** The cards shown on page `p`. */
  function Grid(all: seq<Channel>, p: nat): seq<Channel> {
    Page(all, p, PlayerPerPage)
  }

  /** `channel.url === ch.url`: the card for `card` is highlighted while `playing` plays. */
  predicate IsActive(playing: Channel, card: Channel) {
    playing.url == card.url
  }

  /** No two channels of the list share a URL. */
  predicate DistinctUrls(all: seq<Channel>) {
    forall i, j :: 0 <= i < j < |all| ==> all[i].url != all[j].url
  }

  /**
   * Page `p` of the grid holds channels `10p` up to `min(10p + 10, length)`:
   * at most ten, none when `10p` is past the end, and every one of them
   * taken from its place in the list.
   */
  lemma GridContents(all: seq<Channel>, p: nat)
    ensures |Grid(all, p)| <= PlayerPerPage
    ensures p * PlayerPerPage >= |all| ==> Grid(all, p) == []
    ensures p * PlayerPerPage < |all| ==> |Grid(all, p)| == Min(PlayerPerPage, |all| - p * PlayerPerPage)
    ensures forall k :: 0 <= k < |Grid(all, p)| ==> Grid(all, p)[k] == all[p * PlayerPerPage + k]
  {
    PageContents(all, p, PlayerPerPage);
  }

  /** Exactly the pages below `GridPages(all)` hold cards. */
  lemma GridPagesAreTheNonEmptyPages(all: seq<Channel>, p: nat)
    ensures Grid(all, p) != [] <==> p < GridPages(all)
  {
    TotalPagesIsCeiling(|all|, PlayerPerPage);
    PageContents(all, p, PlayerPerPage);
  }

  /**
   * The channel at index `i` of the list appears on page `i / 10` at
   * position `i % 10`, and that card is highlighted while it plays.
   */
  lemma PlayingCardPosition(all: seq<Channel>, i: nat, playing: Channel)
    requires i < |all| && all[i].url == playing.url
    ensures i % PlayerPerPage < |Grid(all, i / PlayerPerPage)|
    ensures Grid(all, i / PlayerPerPage)[i % PlayerPerPage] == all[i]
    ensures IsActive(playing, Grid(all, i / PlayerPerPage)[i % PlayerPerPage])
  {
    var p := i / PlayerPerPage;
    assert p * PlayerPerPage + i % PlayerPerPage == i;
    PageContents(all, p, PlayerPerPage);
  }

  /**
   * With distinct URLs and the playing channel at index `i`, the highlighted
   * card is unique: it is at position `i % 10` of page `i / 10`, and no other
   * card of any page is highlighted.
   */
  lemma OnlyPlayingCardActive(all: seq<Channel>, i: nat, playing: Channel, p: nat, k: nat)
    requires DistinctUrls(all)
    requires i < |all| && all[i].url == playing.url
    requires k < |Grid(all, p)|
    ensures IsActive(playing, Grid(all, p)[k]) <==> p == i / PlayerPerPage && k == i % PlayerPerPage
  {
    PageContents(all, p, PlayerPerPage);
    var j := p * PlayerPerPage + k;
    assert Grid(all, p)[k] == all[j];
    if IsActive(playing, Grid(all, p)[k]) {
      assert j == i;
      assert k < PlayerPerPage;
    }
    if p == i / PlayerPerPage && k == i % PlayerPerPage {
      PlayingCardPosition(all, i, playing);
    }
  }

  /**
   * The grid's buttons: previous is disabled exactly on page 0, next exactly
   * from the last page on (always, for an empty list); from a page in range
   * either click leads to a page in range, and a next click that is not
   * ignored shows a non-empty page.
   */
  lemma GridButtons(all: seq<Channel>, p: int)
    requires PageInRange(p, GridPages(all))
    ensures PrevDisabled(p) <==> p == 0
    ensures all == [] ==> NextDisabled(p, GridPages(all))
    ensures PageInRange(Prev(p), GridPages(all)) && PageInRange(Next(p, GridPages(all)), GridPages(all))
    ensures !NextDisabled(p, GridPages(all)) ==> Grid(all, Next(p, GridPages(all))) != []
  {
    ClicksStayInRange(p, GridPages(all));
    TotalPagesIsCeiling(|all|, PlayerPerPage);
    if !NextDisabled(p, GridPages(all)) {
      GridPagesAreTheNonEmptyPages(all, p + 1);
    }
  }
}
