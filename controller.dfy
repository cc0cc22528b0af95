/**
 * The playlist loader of src/App.jsx: the component state it updates
 * (`channels`, `switching`, `cache`, `currentPage`), the selection effect
 * that picks the target URL and short-circuits on a cached list, the
 * streaming `loadStream` run with its one-time fast path and its finalize and
 * error steps, and the gallery's page buttons.
 */
module Controller {
  import opened Wrappers
  import opened JsString
  import opened M3u
  import opened Stream
  import opened Pagination
  import opened Player

  /** The fields of a playlist document the loader reads; a missing field is `None`. */
  datatype Playlist = Playlist(m3uUrl: Option<string>, url: Option<string>)

  /** A JavaScript string used as a condition: missing and empty are falsy. */
  predicate Truthy(s: Option<string>) { s.Some? && s.value != "" }

  /** `selectedPlaylist?.m3uUrl || selectedPlaylist?.url`, `None` when falsy. */
  function TargetUrl(selected: Option<Playlist>): (r: Option<string>)
    ensures r.Some? ==> r.value != ""
    ensures r.Some? <==> selected.Some? && (Truthy(selected.value.m3uUrl) || Truthy(selected.value.url))
    ensures selected.Some? && Truthy(selected.value.m3uUrl) ==> r == selected.value.m3uUrl
    ensures selected.Some? && !Truthy(selected.value.m3uUrl) && Truthy(selected.value.url) ==> r == selected.value.url
  {
    if selected.None? then None
    else if Truthy(selected.value.m3uUrl) then selected.value.m3uUrl
    else if Truthy(selected.value.url) then selected.value.url
    else None
  }

  /**
   * What the proxied transfer delivers: the decoded chunks in order, then
   * either `done`, or an exception thrown by `fetch` or a later `read()`.
   */
  datatype Transfer = Transfer(chunks: seq<string>, completed: bool)

  /** The channel count at which the fast path publishes a first batch. */
  const FirstBatch := 20

  /** The channels a transfer's chunks yield once every chunk is read. */
  function Streamed(t: Transfer): seq<Channel> {
    Received(t.chunks).state.channels
  }

  /** The lists `loadStream` passes to `setChannels`, in order. */
  function Published(t: Transfer): (lists: seq<seq<Channel>>) {
    var all := Streamed(t);
    (if |all| >= FirstBatch then [all[..FirstBatch]] else []) + (if t.completed then [all] else [])
  }

  lemma ReceivedNext(chunks: seq<string>, i: nat)
    requires i < |chunks|
    ensures Received(chunks[..i + 1]) == Receive(Received(chunks[..i]), chunks[i])
  {
    assert chunks[..i + 1][..i] == chunks[..i];
  }

  /** The state of the `App` component that the loader reads and writes. */
  class App {
    var channels: seq<Channel>
    var switching: bool
    var cache: map<string, seq<Channel>>
    var page: nat

    constructor ()
      ensures channels == [] && !switching && cache == map[] && page == 0
    {
      channels := [];
      switching := false;
      cache := map[];
      page := 0;
    }

    /**
     * The selection effect. Without a target URL it does nothing. Otherwise
     * it resets the page; a URL already in the cache (even with an empty
     * list) shows the cached list and starts nothing; any other URL clears
     * the list, sets `switching`, and asks for a transfer of that URL.
     */
    method Select(selected: Option<Playlist>) returns (load: Option<string>)
      modifies this
      ensures TargetUrl(selected).None? ==>
        load.None? && channels == old(channels) && switching == old(switching) && page == old(page)
      ensures TargetUrl(selected).Some? && TargetUrl(selected).value in old(cache) ==>
        load.None? && page == 0 && channels == old(cache)[TargetUrl(selected).value] && switching == old(switching)
      ensures TargetUrl(selected).Some? && TargetUrl(selected).value !in old(cache) ==>
        load == TargetUrl(selected) && page == 0 && channels == [] && switching
      ensures cache == old(cache)
    {
      var targetUrl := TargetUrl(selected);
      if targetUrl.None? {
        return None;
      }
      var url := targetUrl.value;
      page := 0;
      if url in cache {
        channels := cache[url];
        return None;
      }
      channels := [];
      switching := true;
      return Some(url);
    }

    /**
     * One `loadStream` run for `targetUrl`. After every chunk, held-back
     * text and parser state are those of `Received`; the first time 20
     * channels exist they are published and `switching` cleared. When the
     * transfer completes, the full list is cached under `targetUrl` and
     * shown; when it throws, only `switching` is cleared.
     */
    method LoadStream(targetUrl: string, transfer: Transfer) returns (published: seq<seq<Channel>>)
      modifies this
      ensures published == Published(transfer)
      ensures transfer.completed ==>
        cache == old(cache)[targetUrl := Streamed(transfer)] && channels == Streamed(transfer)
      ensures !transfer.completed ==> cache == old(cache)
      ensures !transfer.completed && |Streamed(transfer)| >= FirstBatch ==> channels == Streamed(transfer)[..FirstBatch]
      ensures !transfer.completed && |Streamed(transfer)| < FirstBatch ==> channels == old(channels)
      ensures !switching && page == old(page)
    {
      published := [];
      var chunks := transfer.chunks;
      var partialText := "";
      var allParsed: seq<Channel> := [];
      var hasShownFirstBatch := false;
      var current: Option<Entry> := None;
      var i := 0;
      while i < |chunks|
        invariant i <= |chunks|
        invariant Reader(partialText, ParseState(current, allParsed)) == Received(chunks[..i])
        invariant hasShownFirstBatch <==> |allParsed| >= FirstBatch
        invariant hasShownFirstBatch ==> channels == allParsed[..FirstBatch] && !switching && published == [channels]
        invariant !hasShownFirstBatch ==>
          channels == old(channels) && switching == old(switching) && published == []
        invariant cache == old(cache) && page == old(page)
      {
        ReceivedNext(chunks, i);
        partialText, current, allParsed, hasShownFirstBatch, published :=
          ReceiveChunk(chunks[i], partialText, current, allParsed, hasShownFirstBatch, published);
        i := i + 1;
      }
      assert chunks[..i] == chunks;
      if !transfer.completed {
        // catch: the read that would have followed threw
        switching := false;
        return;
      }
      cache := cache[targetUrl := allParsed];
      channels := allParsed;
      switching := false;
      published := published + [allParsed];
    }

    /**
     * One pass of the reading loop: the decoded chunk is appended to
     * `partialText`, the text is split on newlines, the last piece is held
     * back and the complete lines are classified.
     */
    method ReceiveChunk(chunk: string, partial0: string, current0: Option<Entry>, parsed0: seq<Channel>, shown0: bool,
                        published0: seq<seq<Channel>>)
      returns (partialText: string, current: Option<Entry>, allParsed: seq<Channel>, shown: bool,
               published: seq<seq<Channel>>)
      requires shown0 <==> |parsed0| >= FirstBatch
      requires shown0 ==> channels == parsed0[..FirstBatch] && !switching && published0 == [channels]
      requires !shown0 ==> published0 == []
      modifies this
      ensures Reader(partialText, ParseState(current, allParsed)) ==
        Receive(Reader(partial0, ParseState(current0, parsed0)), chunk)
      ensures shown <==> |allParsed| >= FirstBatch
      ensures shown0 ==> shown
      ensures shown ==> channels == allParsed[..FirstBatch] && !switching && published == [channels]
      ensures !shown ==> channels == old(channels) && switching == old(switching) && published == []
      ensures cache == old(cache) && page == old(page)
    {
      partialText := partial0 + chunk;
      var lines := Split(partialText, '\n');
      partialText := lines[|lines| - 1];
      lines := lines[..|lines| - 1];
      current, allParsed, shown, published := ClassifyLines(lines, current0, parsed0, shown0, published0);
    }

    /**
     * The `for (const line of lines)` loop of one read: the complete lines go
     * through the classifier, and the first time 20 channels exist the list
     * is shown, `switching` cleared and the list published.
     */
    method ClassifyLines(lines: seq<string>, current0: Option<Entry>, parsed0: seq<Channel>, shown0: bool,
                         published0: seq<seq<Channel>>)
      returns (current: Option<Entry>, allParsed: seq<Channel>, shown: bool, published: seq<seq<Channel>>)
      requires shown0 <==> |parsed0| >= FirstBatch
      requires shown0 ==> channels == parsed0[..FirstBatch] && !switching && published0 == [channels]
      requires !shown0 ==> published0 == []
      modifies this
      ensures ParseState(current, allParsed) == RunFrom(ParseState(current0, parsed0), lines)
      ensures shown <==> |allParsed| >= FirstBatch
      ensures shown0 ==> shown
      ensures shown ==> channels == allParsed[..FirstBatch] && !switching && published == [channels]
      ensures !shown ==> channels == old(channels) && switching == old(switching) && published == []
      ensures cache == old(cache) && page == old(page)
    {
      current, allParsed, shown, published := current0, parsed0, shown0, published0;
      ghost var st0 := ParseState(current0, parsed0);
      var j := 0;
      while j < |lines|
        invariant j <= |lines|
        invariant ParseState(current, allParsed) == RunFrom(st0, lines[..j])
        invariant shown <==> |allParsed| >= FirstBatch
        invariant shown0 ==> shown
        invariant shown ==> channels == allParsed[..FirstBatch] && !switching && published == [channels]
        invariant !shown ==> channels == old(channels) && switching == old(switching) && published == []
        invariant cache == old(cache) && page == old(page)
      {
        RunFromNext(st0, lines, j);
        ghost var st := ParseState(current, allParsed);
        StepCases(st, lines[j]);
        var trimmed := Trim(lines[j]);
        if StartsWith(trimmed, ExtInfTag) {
          current := Some(EntryOf(trimmed));
        } else if StartsWith(trimmed, UrlPrefix) && current.Some? {
          var c := Channel(current.value.name, current.value.logo, trimmed);
          assert |allParsed| >= FirstBatch ==> (allParsed + [c])[..FirstBatch] == allParsed[..FirstBatch];
          allParsed := allParsed + [c];
          current := None;
          if !shown && |allParsed| >= FirstBatch {
            assert allParsed[..FirstBatch] == allParsed;
            channels := allParsed;
            switching := false;
            shown := true;
            published := published + [allParsed];
          }
        }
        assert ParseState(current, allParsed) == Step(st, lines[j]);
        j := j + 1;
      }
      assert lines[..j] == lines;
    }

    /** `Math.ceil(channels.length / channelsPerPage)`. */
    function TotalGalleryPages(): nat
      reads this
    {
      TotalPages(|channels|, GalleryPerPage)
    }

    /** The channels shown on the current gallery page. */
    function PaginatedChannels(): seq<Channel>
      reads this
    {
      Page(channels, page, GalleryPerPage)
    }

    /** `!switching && channels.length > channelsPerPage`: the page buttons are rendered. */
    predicate ControlsVisible()
      reads this
    {
      !switching && |channels| > GalleryPerPage
    }

    /** A click on the gallery's previous button, which is rendered only with the controls. */
    method ClickPrev()
      requires ControlsVisible()
      modifies this
      ensures page == Prev(old(page))
      ensures channels == old(channels) && switching == old(switching) && cache == old(cache)
    {
      if !PrevDisabled(page) {
        page := page - 1;
      }
    }

    /** A click on the gallery's next button. */
    method ClickNext()
      requires ControlsVisible()
      modifies this
      ensures page == Next(old(page), old(TotalGalleryPages()))
      ensures channels == old(channels) && switching == old(switching) && cache == old(cache)
    {
      if !NextDisabled(page, TotalGalleryPages()) {
        page := page + 1;
      }
    }

    /** A click on the player grid's previous button, which is always rendered. */
    method ClickPlayerPrev()
      modifies this
      ensures page == Prev(old(page))
      ensures channels == old(channels) && switching == old(switching) && cache == old(cache)
    {
      if !PrevDisabled(page) {
        page := page - 1;
      }
    }

    /** A click on the player grid's next button, against the grid's own page count. */
    method ClickPlayerNext()
      modifies this
      ensures page == Next(old(page), GridPages(old(channels)))
      ensures channels == old(channels) && switching == old(switching) && cache == old(cache)
    {
      if !NextDisabled(page, GridPages(channels)) {
        page := page + 1;
      }
    }
  }

  /**
   * A run has no staleness guard: when the user selects `a`, then `b`, and
   * `b`'s transfer finishes before `a`'s, the list shown at the end is `a`'s
   * although `b` is selected, and both lists are cached.
   */
  method SupersededRunOverwrites(a: Playlist, b: Playlist, ta: Transfer, tb: Transfer) returns (app: App)
    requires TargetUrl(Some(a)).Some? && TargetUrl(Some(b)).Some?
    requires TargetUrl(Some(a)) != TargetUrl(Some(b))
    requires ta.completed && tb.completed
    ensures app.channels == Streamed(ta)
    ensures app.cache == map[TargetUrl(Some(b)).value := Streamed(tb), TargetUrl(Some(a)).value := Streamed(ta)]
  {
    app := new App();
    var la := app.Select(Some(a));
    var lb := app.Select(Some(b));
    var _ := app.LoadStream(lb.value, tb);
    var _ := app.LoadStream(la.value, ta);
  }

  /**
   * Selecting `a`, then `b`, then `a` again, each run completing before the
   * next selection: the third selection shows `a`'s cached list (even an
   * empty one) on page 0 and starts no transfer.
   */
  method ReselectUsesCache(a: Playlist, b: Playlist, ta: Transfer, tb: Transfer) returns (app: App, load: Option<string>)
    requires TargetUrl(Some(a)).Some? && TargetUrl(Some(b)).Some?
    requires TargetUrl(Some(a)) != TargetUrl(Some(b))
    requires ta.completed && tb.completed
    ensures load.None? && app.channels == Streamed(ta) && app.page == 0 && !app.switching
    ensures app.cache == map[TargetUrl(Some(a)).value := Streamed(ta), TargetUrl(Some(b)).value := Streamed(tb)]
  {
    app := new App();
    var la := app.Select(Some(a));
    var _ := app.LoadStream(la.value, ta);
    var lb := app.Select(Some(b));
    var _ := app.LoadStream(lb.value, tb);
    load := app.Select(Some(a));
  }
}
