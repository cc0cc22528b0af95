/**
 * The web-worker message handler of src/utils/m3uParser.js: it fetches the
 * playlist, classifies its lines with one pending-entry slot, posts a
 * `PARTIAL` message when the channel count reaches the requested limit, then
 * a `FULL` message with every channel, or a single `ERROR` message when the
 * fetch throws.
 */
module Worker {
  import opened Wrappers
  import opened JsString
  import opened M3u

  /** What `fetch(...)` followed by `response.text()` yields: the body, or the message of the error thrown. */
  datatype Fetch = Body(text: string) | Failed(message: string)

  /** The messages the worker posts back. */
  datatype Message =
    | Partial(channels: seq<Channel>, url: string)
    | Full(channels: seq<Channel>, url: string)
    | Error(error: string)

  /** The channels the worker finds in a body: the loop over `text.split('\n')`. */
  function ParseBody(text: string): seq<Channel> {
    ParseLines(Split(text, '\n')).channels
  }

  /**
   * The whole message sequence of one request: a `PARTIAL` snapshot of the
   * first `limit` channels when a truthy `limit` is reached, then `FULL`; or
   * `ERROR` alone.
   */
  function Messages(url: string, limit: int, fetch: Fetch): (ms: seq<Message>) {
    match fetch
    case Failed(m) => [Error(m)]
    case Body(text) =>
      var all := ParseBody(text);
      (if 1 <= limit <= |all| then [Partial(all[..limit], url)] else []) + [Full(all, url)]
  }

  /** Emitted channels are only ever appended. */
  lemma {:induction false} RunFromExtends(st: ParseState, lines: seq<string>)
    ensures st.channels <= RunFrom(st, lines).channels
  {
    if lines != [] {
      RunFromExtends(st, lines[..|lines| - 1]);
    }
  }

  /** The channels found in a prefix of the lines are a prefix of all channels found. */
  lemma ParsePrefix(lines: seq<string>, i: nat)
    requires i <= |lines|
    ensures ParseLines(lines[..i]).channels <= ParseLines(lines).channels
  {
    assert lines == lines[..i] + lines[i..];
    RunFromAppend(Start, lines[..i], lines[i..]);
    RunFromExtends(ParseLines(lines[..i]), lines[i..]);
  }

  /** `self.onmessage`: the messages posted for one `{ url, limit }` request. */
  method HandleMessage(url: string, limit: int, fetch: Fetch) returns (posted: seq<Message>)
    ensures posted == Messages(url, limit, fetch)
    ensures fetch.Failed? ==> posted == [Error(fetch.message)]
  {
    if fetch.Failed? {
      return [Error(fetch.message)];
    }
    var lines := Split(fetch.text, '\n');
    var channels: seq<Channel> := [];
    var current: Option<Entry> := None;
    posted := [];
    var i := 0;
    while i < |lines|
      invariant i <= |lines|
      invariant ParseState(current, channels) == ParseLines(lines[..i])
      invariant posted == if 1 <= limit <= |channels| then [Partial(channels[..limit], url)] else []
    {
      RunFromNext(Start, lines, i);
      var line := Trim(lines[i]);
      if StartsWith(line, ExtInfTag) {
        current := Some(EntryOf(line));
      } else if StartsWith(line, UrlPrefix) && current.Some? {
        var c := Channel(current.value.name, current.value.logo, line);
        assert 1 <= limit <= |channels| ==> (channels + [c])[..limit] == channels[..limit];
        channels := channels + [c];
        current := None;
        if limit != 0 && |channels| == limit {
          assert posted == [];
          assert channels[..limit] == channels;
          posted := posted + [Partial(channels, url)];
        } else {
          assert 1 <= limit <= |channels| ==> 1 <= limit <= |channels| - 1;
        }
      }
      i := i + 1;
    }
    assert lines[..i] == lines;
    posted := posted + [Full(channels, url)];
  }

  /** A line adds at most one channel. */
  lemma StepAddsAtMostOne(st: ParseState, line: string)
    ensures |Step(st, line).channels| <= |st.channels| + 1
  {
  }

  /**
   * The running count passes through every value up to the final count, so
   * the test `channels.length === limit` fires for every limit in range.
   */
  lemma {:induction false} ReachesEveryCount(lines: seq<string>, c: nat)
    requires c <= |ParseLines(lines).channels|
    ensures exists i :: 0 <= i <= |lines| && |ParseLines(lines[..i]).channels| == c
  {
    assert lines[..|lines|] == lines;
    if lines != [] {
      var n := |lines| - 1;
      var init := lines[..n];
      StepAddsAtMostOne(ParseLines(init), lines[n]);
      if c <= |ParseLines(init).channels| {
        ReachesEveryCount(init, c);
        var i :| 0 <= i <= n && |ParseLines(init[..i]).channels| == c;
        assert init[..i] == lines[..i];
      }
    }
  }

  /** A truthy `limit` is within the final count exactly when the running count equals it after some line. */
  lemma LimitReached(lines: seq<string>, limit: int)
    ensures 1 <= limit <= |ParseLines(lines).channels| <==>
      limit != 0 && exists i :: 0 <= i <= |lines| && |ParseLines(lines[..i]).channels| == limit
  {
    if 1 <= limit <= |ParseLines(lines).channels| {
      ReachesEveryCount(lines, limit);
    } else if limit != 0 {
      forall i | 0 <= i <= |lines| ensures |ParseLines(lines[..i]).channels| != limit {
        ParsePrefix(lines, i);
      }
    }
  }

  /**
   * On success exactly one `FULL` is posted, last, carrying every channel and
   * the requested url. A `PARTIAL` precedes it exactly when `limit` is truthy
   * and the running count equals `limit` after some line; it is posted at most
   * once, and its list is the first `limit` channels of the `FULL` list.
   */
  lemma SuccessShape(url: string, limit: int, text: string)
    ensures var ms := Messages(url, limit, Body(text)); var all := ParseBody(text); var lines := Split(text, '\n');
      && 1 <= |ms| <= 2
      && ms[|ms| - 1] == Full(all, url)
      && (forall k :: 0 <= k < |ms| - 1 ==> ms[k].Partial?)
      && (|ms| == 2 <==> limit != 0 && exists i :: 0 <= i <= |lines| && |ParseLines(lines[..i]).channels| == limit)
      && (|ms| == 2 ==> ms[0].url == url && |ms[0].channels| == limit && ms[0].channels <= all)
  {
    var lines := Split(text, '\n');
    var all := ParseBody(text);
    var ms := Messages(url, limit, Body(text));
    assert |ms| == 2 <==> 1 <= limit <= |all|;
    LimitReached(lines, limit);
    assert |ms| == 2 <==> limit != 0 && exists i :: 0 <= i <= |lines| && |ParseLines(lines[..i]).channels| == limit;
  }
}
