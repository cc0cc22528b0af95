/**
 * The extended-M3U line classifier shared by the worker (src/utils/m3uParser.js)
 * and the streaming loader (src/App.jsx): a single pending-entry slot, an
 * `#EXTINF:` line opens an entry, the next line starting with `http`
 * completes and emits it, every other line is ignored.
 */
module M3u {
  import opened Wrappers
  import opened JsString

  /** A parsed channel record `{ name, logo, url }`. */
  datatype Channel = Channel(name: string, logo: string, url: string)

  /** The pending `currentChannel` object before its `url` is attached. */
  datatype Entry = Entry(name: string, logo: string)

  /** The parser's variables: the pending entry (`null` is `None`) and the channels pushed so far. */
  datatype ParseState = ParseState(current: Option<Entry>, channels: seq<Channel>)

  const Start := ParseState(None, [])
  const ExtInfTag := "#EXTINF:"
  const UrlPrefix := "http"
  const PlaceholderName := "Unknown"
  const LogoOpen := "tvg-logo=\""

  predicate IsExtInfLine(line: string) { StartsWith(Trim(line), ExtInfTag) }
  predicate IsUrlLine(line: string) { StartsWith(Trim(line), UrlPrefix) }

  /** A line that changes the parser's state when an entry may be pending. */
  predicate Significant(line: string) { IsExtInfLine(line) || IsUrlLine(line) }

  /** No line is both an `#EXTINF:` line and a URL line: they differ in the first character. */
  lemma KindsDisjoint(line: string)
    ensures !(IsExtInfLine(line) && IsUrlLine(line))
  {
    var t := Trim(line);
    if StartsWith(t, ExtInfTag) {
      assert t[0] == t[..|ExtInfTag|][0] == '#';
      assert |t| >= |UrlPrefix| ==> t[..|UrlPrefix|][0] == t[0];
    }
  }

  /**
   * `line.split(',').pop() || "Unknown"`, then `.trim()`: the text after the
   * last comma, trimmed, with the placeholder when that text is empty.
   */
  function DisplayName(t: string): (name: string) {
    var seg := LastPiece(t, ',');
    Trim(if seg == "" then PlaceholderName else seg)
  }

  /**
   * The name never holds a comma; it is non-empty for a trimmed non-empty
   * line; and a line without a comma is its own name.
   */
  lemma DisplayNameFacts(t: string)
    ensures ',' !in DisplayName(t)
    ensures IsTrimmed(t) && t != [] ==> DisplayName(t) != []
    ensures IsTrimmed(t) && t != [] && ',' !in t ==> DisplayName(t) == t
  {
    var seg := LastPiece(t, ',');
    LastPieceIsAfterLastSep(t, ',');
    if seg == "" {
      assert IsTrimmed(PlaceholderName);
      TrimOfTrimmed(PlaceholderName);
      if ',' !in t && t != [] {
        SplitNoSep(t, ',');
      }
    } else {
      TrimKeepsAbsent(seg, ',');
      if IsTrimmed(t) && t != [] {
        assert seg[|seg| - 1] == t[|t| - 1];
        TrimKeepsNonWhitespace(seg, |seg| - 1);
        if ',' !in t {
          SplitNoSep(t, ',');
          TrimOfTrimmed(t);
        }
      }
    }
  }

  /** The regular expression `/tvg-logo="([^"]*)"/` matches at position `p`. */
  predicate LogoMatchAt(t: string, p: int) {
    && 0 <= p && p + |LogoOpen| <= |t|
    && t[p..p + |LogoOpen|] == LogoOpen
    && '"' in t[p + |LogoOpen|..]
  }

  /** The leftmost match position at or after `from`, as the regular-expression engine finds it. */
  function FirstLogoMatch(t: string, from: nat): (r: Option<nat>)
    decreases |t| - from
    ensures r.Some? ==> r.value + |LogoOpen| <= |t|
  {
    if from + |LogoOpen| > |t| then None
    else if LogoMatchAt(t, from) then Some(from)
    else FirstLogoMatch(t, from + 1)
  }

  /** `FirstLogoMatch` finds a match, and no match lies before it; it finds none only when there is none. */
  lemma {:induction false} FirstLogoMatchSpec(t: string, from: nat)
    decreases |t| - from
    ensures var r := FirstLogoMatch(t, from);
      r.Some? ==> from <= r.value && LogoMatchAt(t, r.value) && forall q :: from <= q < r.value ==> !LogoMatchAt(t, q)
    ensures FirstLogoMatch(t, from).None? ==> forall q :: from <= q ==> !LogoMatchAt(t, q)
  {
    if from + |LogoOpen| <= |t| && !LogoMatchAt(t, from) {
      FirstLogoMatchSpec(t, from + 1);
    }
  }

  /** The `[^"]*` part: everything before the first quote. */
  function UpToQuote(s: string): string {
    if s == [] then []
    else if s[0] == '"' then []
    else [s[0]] + UpToQuote(s[1..])
  }

  /** The capture is a quote-free prefix that stops at the first quote, and at the end only when there is none. */
  lemma {:induction false} UpToQuoteSpec(s: string)
    ensures var r := UpToQuote(s); |r| <= |s| && r == s[..|r|] && '"' !in r
    ensures |UpToQuote(s)| < |s| <==> '"' in s
    ensures |UpToQuote(s)| < |s| ==> s[|UpToQuote(s)|] == '"'
  {
    if s != [] && s[0] != '"' {
      UpToQuoteSpec(s[1..]);
      assert s == [s[0]] + s[1..];
    }
  }

  /** The first capture group of a match at `p`. */
  function Capture(t: string, p: nat): string
    requires p + |LogoOpen| <= |t|
  {
    UpToQuote(t[p + |LogoOpen|..])
  }

  /** `logoMatch ? logoMatch[1] : ''`. */
  function Logo(t: string): (logo: string) {
    match FirstLogoMatch(t, 0)
    case Some(p) => Capture(t, p)
    case None => ""
  }

  /** The logo never holds a quote, and is empty when the pattern does not occur. */
  lemma LogoFacts(t: string)
    ensures '"' !in Logo(t)
    ensures (forall q :: !LogoMatchAt(t, q)) ==> Logo(t) == ""
  {
    FirstLogoMatchSpec(t, 0);
    var r := FirstLogoMatch(t, 0);
    if r.Some? {
      UpToQuoteSpec(t[r.value + |LogoOpen|..]);
    }
  }

  /** The logo is the capture at the leftmost match. */
  lemma LogoIsLeftmostCapture(t: string, p: nat)
    requires LogoMatchAt(t, p)
    requires forall q :: 0 <= q < p ==> !LogoMatchAt(t, q)
    ensures Logo(t) == Capture(t, p)
  {
    FirstLogoMatchSpec(t, 0);
    var r := FirstLogoMatch(t, 0);
    assert r.Some?;
    assert r.value <= p;
  }

  /** The pending entry an `#EXTINF:` line (already trimmed) opens. */
  function EntryOf(t: string): Entry {
    Entry(DisplayName(t), Logo(t))
  }

  /** One iteration of the classification loop on an untrimmed line. */
  function Step(st: ParseState, line: string): (r: ParseState)
  {
    var t := Trim(line);
    if StartsWith(t, ExtInfTag) then
      ParseState(Some(EntryOf(t)), st.channels)
    else if StartsWith(t, UrlPrefix) && st.current.Some? then
      ParseState(None, st.channels + [Channel(st.current.value.name, st.current.value.logo, t)])
    else st
  }

  /** The loop over `lines`, from parser state `st`. */
  function RunFrom(st: ParseState, lines: seq<string>): (r: ParseState)
  {
    if lines == [] then st else Step(RunFrom(st, lines[..|lines| - 1]), lines[|lines| - 1])
  }

  /** The channels and pending entry after the whole loop over `lines`. */
  function ParseLines(lines: seq<string>): ParseState {
    RunFrom(Start, lines)
  }

  /** Running over two blocks of lines is running over the first, then the second. */
  lemma {:induction false} RunFromAppend(st: ParseState, xs: seq<string>, ys: seq<string>)
    ensures RunFrom(st, xs + ys) == RunFrom(RunFrom(st, xs), ys)
  {
    if ys == [] {
      assert xs + ys == xs;
    } else {
      var n := |ys| - 1;
      assert (xs + ys)[..|xs + ys| - 1] == xs + ys[..n];
      assert (xs + ys)[|xs + ys| - 1] == ys[n];
      RunFromAppend(st, xs, ys[..n]);
    }
  }

  /** One more line of the loop is one more `Step`. */
  lemma RunFromNext(st: ParseState, lines: seq<string>, j: nat)
    requires j < |lines|
    ensures RunFrom(st, lines[..j + 1]) == Step(RunFrom(st, lines[..j]), lines[j])
  {
    assert lines[..j + 1][..j] == lines[..j];
  }

  // ---------------------------------------------------------------------------
  // Provenance: which lines each emitted channel comes from.

  /** How the loop classifies a line. */
  datatype LineKind = ExtInfKind | UrlKind | OtherKind

  function KindOf(line: string): (k: LineKind)
    ensures k == ExtInfKind <==> IsExtInfLine(line)
    ensures k == UrlKind <==> IsUrlLine(line)
  {
    KindsDisjoint(line);
    if IsExtInfLine(line) then ExtInfKind else if IsUrlLine(line) then UrlKind else OtherKind
  }

  /** The kind of every line, in order. */
  function Kinds(lines: seq<string>): (ks: seq<LineKind>)
    ensures |ks| == |lines|
  {
    if lines == [] then [] else Kinds(lines[..|lines| - 1]) + [KindOf(lines[|lines| - 1])]
  }

  lemma {:induction false} KindsIndex(lines: seq<string>, i: nat)
    requires i < |lines|
    ensures Kinds(lines)[i] == KindOf(lines[i])
  {
    if i < |lines| - 1 {
      KindsIndex(lines[..|lines| - 1], i);
    }
  }

  /** Line `e` is an `#EXTINF:` line and only ignored lines follow it before line `n`. */
  ghost predicate OpenAt(ks: seq<LineKind>, n: int, e: int) {
    && 0 <= e < n <= |ks|
    && ks[e] == ExtInfKind
    && forall m :: e < m < n ==> ks[m] == OtherKind
  }

  /** The `#EXTINF:` line `e` is completed by the URL line `u`. */
  ghost predicate Pairs(ks: seq<LineKind>, e: int, u: int) {
    u < |ks| && OpenAt(ks, u, e) && ks[u] == UrlKind
  }

  ghost predicate NoneOpen(ks: seq<LineKind>, n: int) {
    forall e :: !OpenAt(ks, n, e)
  }

  /** The pairs are exactly the completed pairs before line `n`, in line order. */
  ghost predicate PairsBefore(ks: seq<LineKind>, n: int, ps: seq<(nat, nat)>) {
    && (forall k :: 0 <= k < |ps| ==> ps[k].1 < n && Pairs(ks, ps[k].0, ps[k].1))
    && (forall i, j :: 0 <= i < j < |ps| ==> ps[i].1 < ps[j].0)
    && (forall e, u :: 0 <= u < n && Pairs(ks, e, u) ==> (e, u) in ps)
  }

  /** The channel built from `#EXTINF:` line `e` and URL line `u`. */
  function ChannelOf(lines: seq<string>, e: nat, u: nat): Channel
    requires e < |lines| && u < |lines|
  {
    var t := Trim(lines[e]);
    Channel(DisplayName(t), Logo(t), Trim(lines[u]))
  }

  /** Every pair names lines of `lines`. */
  ghost predicate InRange(lines: seq<string>, ps: seq<(nat, nat)>) {
    forall k :: 0 <= k < |ps| ==> ps[k].0 < |lines| && ps[k].1 < |lines|
  }

  /** The channels the pairs `ps` build, in order. */
  ghost function ChannelsOf(lines: seq<string>, ps: seq<(nat, nat)>): (r: seq<Channel>)
    requires InRange(lines, ps)
    ensures |r| == |ps|
  {
    if ps == [] then []
    else
      var p := ps[|ps| - 1];
      ChannelsOf(lines, ps[..|ps| - 1]) + [ChannelOf(lines, p.0, p.1)]
  }

  lemma ChannelsOfSnoc(lines: seq<string>, ps: seq<(nat, nat)>, p: (nat, nat))
    requires InRange(lines, ps + [p]) && p.0 < |lines| && p.1 < |lines|
    ensures InRange(lines, ps)
    ensures ChannelsOf(lines, ps + [p]) == ChannelsOf(lines, ps) + [ChannelOf(lines, p.0, p.1)]
  {
    assert (ps + [p])[..|ps|] == ps;
    forall k | 0 <= k < |ps| ensures ps[k].0 < |lines| && ps[k].1 < |lines| {
      assert ps[k] == (ps + [p])[k];
    }
  }

  lemma {:induction false} ChannelsOfIndex(lines: seq<string>, ps: seq<(nat, nat)>, k: nat)
    requires InRange(lines, ps) && k < |ps|
    ensures ChannelsOf(lines, ps)[k] == ChannelOf(lines, ps[k].0, ps[k].1)
  {
    if k < |ps| - 1 {
      ChannelsOfIndex(lines, ps[..|ps| - 1], k);
    }
  }

  /**
   * `ps` gives, for each channel, its `#EXTINF:` line and its URL line: the
   * pairs are exactly the completed pairs of the whole input, in line order.
   */
  ghost predicate Explains(lines: seq<string>, ps: seq<(nat, nat)>, chans: seq<Channel>) {
    && |ps| == |chans|
    && PairsBefore(Kinds(lines), |lines|, ps)
    && forall k :: 0 <= k < |ps| ==> ps[k].0 < |lines| && ps[k].1 < |lines| && chans[k] == ChannelOf(lines, ps[k].0, ps[k].1)
  }

  lemma OpenUnique(ks: seq<LineKind>, n: int, e: int, e': int)
    requires OpenAt(ks, n, e) && OpenAt(ks, n, e')
    ensures e == e'
  {
    assert ks[e] == ExtInfKind && ks[e'] == ExtInfKind;
  }

  /** A line that is not a URL line completes no pair. */
  lemma PairsAtNonUrl(ks: seq<LineKind>, n: nat, ps: seq<(nat, nat)>)
    requires 0 < n <= |ks| && ks[n - 1] != UrlKind
    requires PairsBefore(ks, n - 1, ps)
    ensures PairsBefore(ks, n, ps)
  {
    forall e, u | 0 <= u < n && Pairs(ks, e, u) ensures (e, u) in ps {
      assert u != n - 1;
    }
  }

  /** After a URL line nothing is open. */
  lemma NoneOpenAfterUrl(ks: seq<LineKind>, n: nat)
    requires 0 < n <= |ks| && ks[n - 1] == UrlKind
    ensures NoneOpen(ks, n)
  {
    forall e ensures !OpenAt(ks, n, e) {
      assert ks[n - 1] == UrlKind;
    }
  }

  /** A URL line with an open entry completes exactly the pair of that entry. */
  lemma PairsAtUrl(ks: seq<LineKind>, n: nat, ps: seq<(nat, nat)>, open: nat)
    requires 0 < n <= |ks| && ks[n - 1] == UrlKind
    requires PairsBefore(ks, n - 1, ps)
    requires OpenAt(ks, n - 1, open)
    requires |ps| > 0 ==> ps[|ps| - 1].1 < open
    ensures PairsBefore(ks, n, ps + [(open, n - 1)])
  {
    var ps' := ps + [(open, n - 1)];
    assert Pairs(ks, open, n - 1);
    forall k | 0 <= k < |ps'| ensures ps'[k].1 < n && Pairs(ks, ps'[k].0, ps'[k].1) {
      if k < |ps| { assert ps'[k] == ps[k]; }
    }
    forall i, j | 0 <= i < j < |ps'| ensures ps'[i].1 < ps'[j].0 {
      if j < |ps| {
        assert ps'[i] == ps[i] && ps'[j] == ps[j];
      } else if i < |ps| - 1 {
        assert ps[i].1 < ps[|ps| - 1].0 < ps[|ps| - 1].1;
      }
    }
    forall e, u | 0 <= u < n && Pairs(ks, e, u) ensures (e, u) in ps' {
      if u == n - 1 {
        OpenUnique(ks, n - 1, e, open);
      } else {
        assert (e, u) in ps;
      }
    }
  }

  /** A URL line with nothing open completes no pair. */
  lemma PairsAtOrphanUrl(ks: seq<LineKind>, n: nat, ps: seq<(nat, nat)>)
    requires 0 < n <= |ks|
    requires PairsBefore(ks, n - 1, ps)
    requires NoneOpen(ks, n - 1)
    ensures PairsBefore(ks, n, ps)
  {
    forall e, u | 0 <= u < n && Pairs(ks, e, u) ensures (e, u) in ps {
      assert !OpenAt(ks, n - 1, e);
    }
  }

  /** An ignored line leaves the open entry open, and leaves nothing open when nothing was. */
  lemma OpenAtOther(ks: seq<LineKind>, n: nat, open: int)
    requires 0 < n <= |ks| && ks[n - 1] == OtherKind
    ensures OpenAt(ks, n - 1, open) ==> OpenAt(ks, n, open)
    ensures NoneOpen(ks, n - 1) ==> NoneOpen(ks, n)
  {
    if NoneOpen(ks, n - 1) {
      forall e ensures !OpenAt(ks, n, e) {
        assert !OpenAt(ks, n - 1, e);
      }
    }
  }

  /** What one step does, in the terms of the loop body. */
  lemma StepCases(st: ParseState, line: string)
    ensures var t := Trim(line); StartsWith(t, ExtInfTag) ==> Step(st, line) == ParseState(Some(EntryOf(t)), st.channels)
    ensures var t := Trim(line); !StartsWith(t, ExtInfTag) && StartsWith(t, UrlPrefix) && st.current.Some? ==>
      Step(st, line) == ParseState(None, st.channels + [Channel(st.current.value.name, st.current.value.logo, t)])
    ensures var t := Trim(line); !StartsWith(t, ExtInfTag) && !(StartsWith(t, UrlPrefix) && st.current.Some?) ==>
      Step(st, line) == st
  {
  }

  /** What one step does, by the kind of the line. */
  lemma StepByKind(st: ParseState, line: string)
    ensures KindOf(line) == ExtInfKind ==> Step(st, line) == ParseState(Some(EntryOf(Trim(line))), st.channels)
    ensures KindOf(line) == UrlKind && st.current.Some? ==>
      Step(st, line) == ParseState(None, st.channels + [Channel(st.current.value.name, st.current.value.logo, Trim(line))])
    ensures KindOf(line) == UrlKind && st.current.None? ==> Step(st, line) == st
    ensures KindOf(line) == OtherKind ==> Step(st, line) == st
  {
  }

  /**
   * The loop seen through line kinds only: the still-open `#EXTINF:` line
   * (`-1` for none) and the completed pairs after the first `n` lines.
   */
  function PairRun(ks: seq<LineKind>, n: nat): (r: (int, seq<(nat, nat)>))
    requires n <= |ks|
    ensures -1 <= r.0 < n
    ensures forall k :: 0 <= k < |r.1| ==> r.1[k].0 < r.1[k].1 < n
  {
    if n == 0 then (-1, [])
    else
      var prev := PairRun(ks, n - 1);
      match ks[n - 1]
      case ExtInfKind => (n - 1, prev.1)
      case UrlKind => if prev.0 >= 0 then (-1, prev.1 + [(prev.0, n - 1)]) else (-1, prev.1)
      case OtherKind => prev
  }

  /**
   * `r` is the truth about the first `n` lines: its pairs are exactly the
   * completed pairs, in order, and its open line is the still-open one.
   */
  ghost predicate Sound(ks: seq<LineKind>, n: int, r: (int, seq<(nat, nat)>)) {
    && PairsBefore(ks, n, r.1)
    && (r.0 >= 0 ==> OpenAt(ks, n, r.0))
    && (r.0 < 0 ==> NoneOpen(ks, n))
    && (r.0 >= 0 && |r.1| > 0 ==> r.1[|r.1| - 1].1 < r.0)
  }

  lemma SoundAtExtInf(ks: seq<LineKind>, n: nat)
    requires 0 < n <= |ks| && ks[n - 1] == ExtInfKind && Sound(ks, n - 1, PairRun(ks, n - 1))
    ensures Sound(ks, n, PairRun(ks, n))
  {
    var prev := PairRun(ks, n - 1);
    assert PairRun(ks, n) == (n - 1, prev.1);
    PairsAtNonUrl(ks, n, prev.1);
    assert OpenAt(ks, n, n - 1);
  }

  lemma SoundAtOther(ks: seq<LineKind>, n: nat)
    requires 0 < n <= |ks| && ks[n - 1] == OtherKind && Sound(ks, n - 1, PairRun(ks, n - 1))
    ensures Sound(ks, n, PairRun(ks, n))
  {
    var prev := PairRun(ks, n - 1);
    assert PairRun(ks, n) == prev;
    PairsAtNonUrl(ks, n, prev.1);
    OpenAtOther(ks, n, prev.0);
  }

  lemma SoundAtUrl(ks: seq<LineKind>, n: nat)
    requires 0 < n <= |ks| && ks[n - 1] == UrlKind && Sound(ks, n - 1, PairRun(ks, n - 1))
    requires PairRun(ks, n - 1).0 >= 0
    ensures Sound(ks, n, PairRun(ks, n))
  {
    var prev := PairRun(ks, n - 1);
    assert PairRun(ks, n) == (-1, prev.1 + [(prev.0, n - 1)]);
    PairsAtUrl(ks, n, prev.1, prev.0);
    NoneOpenAfterUrl(ks, n);
  }

  lemma SoundAtOrphanUrl(ks: seq<LineKind>, n: nat)
    requires 0 < n <= |ks| && ks[n - 1] == UrlKind && Sound(ks, n - 1, PairRun(ks, n - 1))
    requires PairRun(ks, n - 1).0 < 0
    ensures Sound(ks, n, PairRun(ks, n))
  {
    var prev := PairRun(ks, n - 1);
    assert PairRun(ks, n) == (-1, prev.1);
    PairsAtOrphanUrl(ks, n, prev.1);
    NoneOpenAfterUrl(ks, n);
  }

  /** `PairRun` finds exactly the completed pairs, in order, and the open line. */
  lemma {:induction false} PairRunSound(ks: seq<LineKind>, n: nat)
    requires n <= |ks|
    ensures Sound(ks, n, PairRun(ks, n))
  {
    if n > 0 {
      PairRunSound(ks, n - 1);
      match ks[n - 1]
      case ExtInfKind => SoundAtExtInf(ks, n);
      case OtherKind => SoundAtOther(ks, n);
      case UrlKind =>
        if PairRun(ks, n - 1).0 >= 0 {
          SoundAtUrl(ks, n);
        } else {
          SoundAtOrphanUrl(ks, n);
        }
    }
  }

  /** The pending slot when line `o` is the open `#EXTINF:` line. */
  function PendingOf(lines: seq<string>, o: int): Option<Entry> {
    if 0 <= o < |lines| then Some(EntryOf(Trim(lines[o]))) else None
  }

  /** `st` is the parser state that `PairRun` describes after `n` lines. */
  ghost predicate Described(lines: seq<string>, ks: seq<LineKind>, n: nat, st: ParseState)
    requires |ks| == |lines| && n <= |lines|
  {
    && st.current == PendingOf(lines, PairRun(ks, n).0)
    && st.channels == ChannelsOf(lines, PairRun(ks, n).1)
  }

  lemma ExtInfPending(lines: seq<string>, ks: seq<LineKind>, n: nat)
    requires |ks| == |lines| && 0 < n <= |lines| && ks[n - 1] == ExtInfKind
    ensures PendingOf(lines, PairRun(ks, n).0) == Some(EntryOf(Trim(lines[n - 1])))
  {
    assert PairRun(ks, n).0 == n - 1;
  }

  lemma ExtInfChannels(lines: seq<string>, ks: seq<LineKind>, n: nat, chans: seq<Channel>)
    requires |ks| == |lines| && 0 < n <= |lines| && ks[n - 1] == ExtInfKind
    requires chans == ChannelsOf(lines, PairRun(ks, n - 1).1)
    ensures chans == ChannelsOf(lines, PairRun(ks, n).1)
  {
    assert PairRun(ks, n).1 == PairRun(ks, n - 1).1;
  }

  lemma ExtInfStep(lines: seq<string>, ks: seq<LineKind>, n: nat, st0: ParseState, st: ParseState)
    requires |ks| == |lines| && 0 < n <= |lines| && ks[n - 1] == ExtInfKind
    requires Described(lines, ks, n - 1, st0)
    requires st == ParseState(Some(EntryOf(Trim(lines[n - 1]))), st0.channels)
    ensures Described(lines, ks, n, st)
  {
    ExtInfPending(lines, ks, n);
    ExtInfChannels(lines, ks, n, st0.channels);
  }

  lemma OtherStep(lines: seq<string>, ks: seq<LineKind>, n: nat, st0: ParseState)
    requires |ks| == |lines| && 0 < n <= |lines| && ks[n - 1] == KindOf(lines[n - 1]) == OtherKind
    requires Described(lines, ks, n - 1, st0)
    ensures Described(lines, ks, n, Step(st0, lines[n - 1]))
  {
    StepByKind(st0, lines[n - 1]);
    assert PairRun(ks, n) == PairRun(ks, n - 1);
  }

  lemma OrphanUrlStep(lines: seq<string>, ks: seq<LineKind>, n: nat, st0: ParseState)
    requires |ks| == |lines| && 0 < n <= |lines| && ks[n - 1] == KindOf(lines[n - 1]) == UrlKind
    requires PairRun(ks, n - 1).0 < 0
    requires Described(lines, ks, n - 1, st0)
    ensures Described(lines, ks, n, Step(st0, lines[n - 1]))
  {
    var prev := PairRun(ks, n - 1);
    StepByKind(st0, lines[n - 1]);
    assert PairRun(ks, n) == (-1, prev.1);
  }

  lemma UrlStep(lines: seq<string>, ks: seq<LineKind>, n: nat, st0: ParseState)
    requires |ks| == |lines| && 0 < n <= |lines| && ks[n - 1] == KindOf(lines[n - 1]) == UrlKind
    requires PairRun(ks, n - 1).0 >= 0
    requires Described(lines, ks, n - 1, st0)
    ensures Described(lines, ks, n, Step(st0, lines[n - 1]))
  {
    var prev := PairRun(ks, n - 1);
    StepByKind(st0, lines[n - 1]);
    var ps := prev.1 + [(prev.0, n - 1)];
    assert PairRun(ks, n) == (-1, ps);
    ChannelsOfSnoc(lines, prev.1, (prev.0, n - 1));
  }

  /** One step of the loop moves from one described state to the next. */
  lemma DescribedStep(lines: seq<string>, ks: seq<LineKind>, n: nat, st0: ParseState)
    requires |ks| == |lines| && 0 < n <= |lines| && ks[n - 1] == KindOf(lines[n - 1])
    requires Described(lines, ks, n - 1, st0)
    ensures Described(lines, ks, n, Step(st0, lines[n - 1]))
  {
    match ks[n - 1]
    case ExtInfKind =>
      StepByKind(st0, lines[n - 1]);
      ExtInfStep(lines, ks, n, st0, Step(st0, lines[n - 1]));
    case OtherKind => OtherStep(lines, ks, n, st0);
    case UrlKind =>
      if PairRun(ks, n - 1).0 >= 0 {
        UrlStep(lines, ks, n, st0);
      } else {
        OrphanUrlStep(lines, ks, n, st0);
      }
  }

  /** The parser's state after `n` lines is the one `PairRun` describes. */
  lemma {:induction false} ParseFollowsPairs(lines: seq<string>, n: nat)
    requires n <= |lines|
    ensures Described(lines, Kinds(lines), n, ParseLines(lines[..n]))
  {
    if n > 0 {
      ParseFollowsPairs(lines, n - 1);
      assert lines[..n][..n - 1] == lines[..n - 1];
      assert ParseLines(lines[..n]) == Step(ParseLines(lines[..n - 1]), lines[n - 1]);
      KindsIndex(lines, n - 1);
      DescribedStep(lines, Kinds(lines), n, ParseLines(lines[..n - 1]));
    }
  }

  /**
   * Order and provenance of the parse: every emitted channel is built from an
   * `#EXTINF:` line and the first later URL line with only ignored lines
   * between them, the channels follow the order of their lines, each URL
   * line comes before the next channel's `#EXTINF:` line, and every such pair
   * of lines yields a channel.
   */
  lemma ParseProvenance(lines: seq<string>) returns (ps: seq<(nat, nat)>)
    ensures Explains(lines, ps, ParseLines(lines).channels)
  {
    ps := PairRun(Kinds(lines), |lines|).1;
    PairRunSound(Kinds(lines), |lines|);
    ParseFollowsPairs(lines, |lines|);
    assert lines[..|lines|] == lines;
    ChannelsOfExplains(lines, ps);
  }

  lemma ChannelsOfExplains(lines: seq<string>, ps: seq<(nat, nat)>)
    requires InRange(lines, ps) && PairsBefore(Kinds(lines), |lines|, ps)
    ensures Explains(lines, ps, ChannelsOf(lines, ps))
  {
    forall k | 0 <= k < |ps| ensures ChannelsOf(lines, ps)[k] == ChannelOf(lines, ps[k].0, ps[k].1) {
      ChannelsOfIndex(lines, ps, k);
    }
  }

  // ---------------------------------------------------------------------------
  // Counting and the recovery policies.

  function CountExtInf(lines: seq<string>): nat {
    if lines == [] then 0
    else CountExtInf(lines[..|lines| - 1]) + (if IsExtInfLine(lines[|lines| - 1]) then 1 else 0)
  }

  function CountUrl(lines: seq<string>): nat {
    if lines == [] then 0
    else CountUrl(lines[..|lines| - 1]) + (if IsUrlLine(lines[|lines| - 1]) then 1 else 0)
  }

  /**
   * Dropped entries only lose channels: there are no more channels (plus the
   * pending entry) than `#EXTINF:` lines, and no more channels than URL lines.
   */
  lemma {:induction false} CountBounds(lines: seq<string>)
    ensures |ParseLines(lines).channels| + (if ParseLines(lines).current.Some? then 1 else 0) <= CountExtInf(lines)
    ensures |ParseLines(lines).channels| <= CountUrl(lines)
  {
    if lines != [] {
      CountBounds(lines[..|lines| - 1]);
      KindsDisjoint(lines[|lines| - 1]);
    }
  }

  /** Lines that are neither `#EXTINF:` nor URL lines change nothing. */
  lemma {:induction false} OthersInert(st: ParseState, lines: seq<string>)
    requires forall k :: 0 <= k < |lines| ==> !Significant(lines[k])
    ensures RunFrom(st, lines) == st
  {
    if lines != [] {
      OthersInert(st, lines[..|lines| - 1]);
    }
  }

  /** With nothing pending, URL lines and other lines up to the next `#EXTINF:` produce no channel. */
  lemma {:induction false} OrphanUrlsIgnored(st: ParseState, lines: seq<string>)
    requires st.current.None?
    requires forall k :: 0 <= k < |lines| ==> !IsExtInfLine(lines[k])
    ensures RunFrom(st, lines) == st
  {
    if lines != [] {
      OrphanUrlsIgnored(st, lines[..|lines| - 1]);
    }
  }

  /** Without URL lines no channel is emitted, whatever `#EXTINF:` lines there are. */
  lemma {:induction false} NoUrlNoChannel(st: ParseState, lines: seq<string>)
    requires forall k :: 0 <= k < |lines| ==> !IsUrlLine(lines[k])
    ensures RunFrom(st, lines).channels == st.channels
  {
    if lines != [] {
      NoUrlNoChannel(st, lines[..|lines| - 1]);
    }
  }

  /** A trailing `#EXTINF:` line, and whatever follows it without a URL line, is dropped. */
  lemma DanglingEntryDropped(lines: seq<string>, ext: string, tail: seq<string>)
    requires IsExtInfLine(ext)
    requires forall k :: 0 <= k < |tail| ==> !IsUrlLine(tail[k])
    ensures ParseLines(lines + [ext] + tail).channels == ParseLines(lines).channels
  {
    RunFromAppend(Start, lines + [ext], tail);
    RunFromAppend(Start, lines, [ext]);
    NoUrlNoChannel(ParseLines(lines + [ext]), tail);
  }

  /** An `#EXTINF:` line followed by another with no URL line between: the first entry is replaced. */
  lemma PendingReplaced(st: ParseState, first: string, mid: seq<string>, second: string)
    requires IsExtInfLine(first) && IsExtInfLine(second)
    requires forall k :: 0 <= k < |mid| ==> !Significant(mid[k])
    ensures RunFrom(st, [first] + mid + [second]) == RunFrom(st, [second])
    ensures RunFrom(st, [second]) == ParseState(Some(EntryOf(Trim(second))), st.channels)
  {
    var s1 := RunFrom(st, [first]);
    assert RunFrom(st, [first]) == Step(RunFrom(st, []), first);
    RunFromAppend(st, [first], mid);
    OthersInert(s1, mid);
    RunFromAppend(st, [first] + mid, [second]);
    assert RunFrom(st, [second]) == Step(RunFrom(st, []), second);
  }

  // ---------------------------------------------------------------------------
  // Shape of the emitted records.

  /** Every emitted channel: a non-empty comma-free name, a quote-free logo, a trimmed `http…` url. */
  predicate WellFormed(c: Channel) {
    && c.name != [] && ',' !in c.name
    && '"' !in c.logo
    && IsTrimmed(c.url) && StartsWith(c.url, UrlPrefix)
  }

  predicate WellFormedState(st: ParseState) {
    && (forall k :: 0 <= k < |st.channels| ==> WellFormed(st.channels[k]))
    && (st.current.Some? ==> st.current.value.name != [] && ',' !in st.current.value.name && '"' !in st.current.value.logo)
  }

  /** One step keeps every emitted record and the pending entry well formed. */
  lemma StepWellFormed(st: ParseState, line: string)
    requires WellFormedState(st)
    ensures WellFormedState(Step(st, line))
  {
    var t := Trim(line);
    TrimIsTrimmed(line);
    if StartsWith(t, ExtInfTag) {
      assert t != [];
      DisplayNameFacts(t);
      LogoFacts(t);
    } else if StartsWith(t, UrlPrefix) && st.current.Some? {
      var r := Step(st, line);
      assert r.channels == st.channels + [Channel(st.current.value.name, st.current.value.logo, t)];
    }
  }

  lemma {:induction false} RunFromWellFormed(st: ParseState, lines: seq<string>)
    requires WellFormedState(st)
    ensures WellFormedState(RunFrom(st, lines))
  {
    if lines != [] {
      RunFromWellFormed(st, lines[..|lines| - 1]);
      StepWellFormed(RunFrom(st, lines[..|lines| - 1]), lines[|lines| - 1]);
    }
  }

  lemma ParsedChannelsWellFormed(lines: seq<string>)
    ensures forall k :: 0 <= k < |ParseLines(lines).channels| ==> WellFormed(ParseLines(lines).channels[k])
  {
    RunFromWellFormed(Start, lines);
  }

  // ---------------------------------------------------------------------------
  // The worked example: two channels, one with a logo and one without.

  /**
   * The name is read after the last comma, whatever precedes it: the
   * placeholder when nothing follows the comma, otherwise the trimmed text
   * that follows it.
   */
  lemma NameAfterLastComma(pre: string, seg: string)
    requires ',' !in seg
    ensures DisplayName(pre + [','] + seg) == if seg == "" then PlaceholderName else Trim(seg)
  {
    var s := pre + [','];
    SplitAppend(s, seg, ',');
    assert s + seg == pre + [','] + seg;
    LastPieceAfterFinalSep(s, ',');
    assert LastPiece(s, ',') + seg == seg;
    SplitNoSep(seg, ',');
    if seg == "" {
      assert IsTrimmed(PlaceholderName);
      TrimOfTrimmed(PlaceholderName);
    }
  }

  /** A line ending in a comma is named `"Unknown"`. */
  lemma PlaceholderAfterFinalComma(pre: string)
    ensures DisplayName(pre + [',']) == PlaceholderName
  {
    NameAfterLastComma(pre, "");
    assert pre + [','] + "" == pre + [','];
  }

  /** The text after the last comma is the name as it stands when it is trimmed and non-empty. */
  lemma TrimmedNameAfterLastComma(pre: string, name: string)
    requires ',' !in name && name != [] && IsTrimmed(name)
    ensures DisplayName(pre + [','] + name) == name
  {
    NameAfterLastComma(pre, name);
    TrimOfTrimmed(name);
  }

  /** With no `t` before it, the first `tvg-logo="` is the leftmost match, and the logo is its capture. */
  lemma LogoAfterPrefix(pre: string, cap: string, rest: string)
    requires 't' !in pre && '"' !in cap
    ensures Logo(pre + LogoOpen + cap + ['"'] + rest) == cap
  {
    var t := pre + LogoOpen + cap + ['"'] + rest;
    var p := |pre|;
    assert t[p..p + |LogoOpen|] == LogoOpen;
    assert t[p + |LogoOpen|..] == cap + ['"'] + rest;
    assert LogoMatchAt(t, p);
    forall q | 0 <= q < p ensures !LogoMatchAt(t, q) {
      assert t[q] == pre[q];
    }
    LogoIsLeftmostCapture(t, p);
    assert UpToQuote(cap + ['"'] + rest) == cap by {
      UpToQuoteOfPrefix(cap, rest);
    }
  }

  lemma {:induction false} UpToQuoteOfPrefix(cap: string, rest: string)
    requires '"' !in cap
    ensures UpToQuote(cap + ['"'] + rest) == cap
  {
    if cap != [] {
      assert (cap + ['"'] + rest)[1..] == cap[1..] + ['"'] + rest;
      assert '"' !in cap[1..] by {
        forall k | 0 <= k < |cap| - 1 ensures cap[1..][k] != '"' { assert cap[1..][k] == cap[k + 1]; }
      }
      UpToQuoteOfPrefix(cap[1..], rest);
      assert [cap[0]] + cap[1..] == cap;
    }
  }

  /** A line with no `t` has no `tvg-logo="` in it, so no logo. */
  lemma NoLogoWithoutT(t: string)
    requires 't' !in t
    ensures Logo(t) == ""
  {
    LogoFacts(t);
    forall q ensures !LogoMatchAt(t, q) {
      if 0 <= q && q + |LogoOpen| <= |t| {
        assert t[q..q + |LogoOpen|][0] == t[q];
      }
    }
  }

  /** An `#EXTINF:` line followed by a URL line emits one channel, whatever was pending. */
  lemma PairEmits(st: ParseState, ext: string, url: string)
    requires IsExtInfLine(ext) && IsUrlLine(url)
    ensures RunFrom(st, [ext, url]) == ParseState(None, st.channels + [Channel(DisplayName(Trim(ext)), Logo(Trim(ext)), Trim(url))])
  {
    var s1 := Step(st, ext);
    assert [ext, url][..1] == [ext];
    assert [ext][..0] == [];
    assert RunFrom(st, [ext]) == s1;
    assert RunFrom(st, [ext, url]) == Step(s1, url);
    StepByKind(st, ext);
    StepByKind(s1, url);
  }

  /** Two newline-terminated lines in front of any text split off as two pieces. */
  lemma TwoLinesSplit(a: string, b: string, rest: string)
    requires '\n' !in a && '\n' !in b
    ensures Split(a + "\n" + b + "\n" + rest, '\n') == [a, b] + Split(rest, '\n')
  {
    var r2 := b + ['\n'] + rest;
    assert a + "\n" + b + "\n" + rest == a + ['\n'] + r2;
    SplitPiece(b, rest, '\n');
    SplitPiece(a, r2, '\n');
  }

  /** Four newline-terminated lines split into those lines and an empty last piece. */
  lemma FourLinesSplit(a: string, b: string, c: string, d: string)
    requires '\n' !in a && '\n' !in b && '\n' !in c && '\n' !in d
    ensures Split(a + "\n" + b + "\n" + c + "\n" + d + "\n", '\n') == [a, b] + [c, d] + [""]
  {
    var tail := c + "\n" + d + "\n";
    assert a + "\n" + b + "\n" + c + "\n" + d + "\n" == a + "\n" + b + "\n" + tail;
    TwoLinesSplit(a, b, tail);
    assert tail == c + "\n" + d + "\n" + "";
    TwoLinesSplit(c, d, "");
    assert Split("", '\n') == [""];
  }

  /** An empty line, such as the piece after a final newline, changes nothing. */
  lemma EmptyLineInert(st: ParseState)
    ensures RunFrom(st, [""]) == st
  {
    assert [""][..0] == [];
    assert Trim("") == "";
  }

  /** Two pairs emit their two channels in order. */
  lemma TwoPairsRun(e1: string, u1: string, e2: string, u2: string)
    requires IsExtInfLine(e1) && IsUrlLine(u1) && IsExtInfLine(e2) && IsUrlLine(u2)
    ensures RunFrom(Start, [e1, u1] + [e2, u2]).channels
         == [Channel(DisplayName(Trim(e1)), Logo(Trim(e1)), Trim(u1)), Channel(DisplayName(Trim(e2)), Logo(Trim(e2)), Trim(u2))]
  {
    PairEmits(Start, e1, u1);
    PairEmits(RunFrom(Start, [e1, u1]), e2, u2);
    RunFromAppend(Start, [e1, u1], [e2, u2]);
  }

  /** Two pairs and an empty line parse to the two channels in order. */
  lemma TwoPairs(e1: string, u1: string, e2: string, u2: string)
    requires IsExtInfLine(e1) && IsUrlLine(u1) && IsExtInfLine(e2) && IsUrlLine(u2)
    ensures ParseLines([e1, u1] + [e2, u2] + [""]).channels
         == [Channel(DisplayName(Trim(e1)), Logo(Trim(e1)), Trim(u1)), Channel(DisplayName(Trim(e2)), Logo(Trim(e2)), Trim(u2))]
  {
    var p := [e1, u1] + [e2, u2];
    TwoPairsRun(e1, u1, e2, u2);
    RunFromAppend(Start, p, [""]);
    EmptyLineInert(RunFrom(Start, p));
  }

  const ExampleName1 := "Channel One"
  const ExampleLogo1 := "http://x/logo.png"
  const ExampleName2 := "Channel Two"
  const ExampleLine1 := "#EXTINF:-1 " + LogoOpen + ExampleLogo1 + ['"'] + [','] + ExampleName1
  const ExampleLine2 := "http://stream/1"
  const ExampleLine3 := "#EXTINF:-1" + [','] + ExampleName2
  const ExampleLine4 := "http://stream/2"
  const ExampleText := ExampleLine1 + "\n" + ExampleLine2 + "\n" + ExampleLine3 + "\n" + ExampleLine4 + "\n"

  lemma ExampleLine1Facts()
    ensures Trim(ExampleLine1) == ExampleLine1 && IsExtInfLine(ExampleLine1) && '\n' !in ExampleLine1
  {
    assert ExampleLine1[0] == '#' && ExampleLine1[|ExampleLine1| - 1] == 'e';
    TrimOfTrimmed(ExampleLine1);
    assert ExampleLine1[..8] == ExtInfTag;
  }

  lemma ExampleLine3Facts()
    ensures Trim(ExampleLine3) == ExampleLine3 && IsExtInfLine(ExampleLine3) && '\n' !in ExampleLine3 && 't' !in ExampleLine3
  {
    assert ExampleLine3[0] == '#' && ExampleLine3[|ExampleLine3| - 1] == 'o';
    TrimOfTrimmed(ExampleLine3);
    assert ExampleLine3[..8] == ExtInfTag;
  }

  lemma ExampleUrl1Facts()
    ensures Trim(ExampleLine2) == ExampleLine2 && IsUrlLine(ExampleLine2) && '\n' !in ExampleLine2
  {
    assert ExampleLine2[0] == 'h' && ExampleLine2[|ExampleLine2| - 1] == '1';
    TrimOfTrimmed(ExampleLine2);
    assert ExampleLine2[..4] == UrlPrefix;
  }

  lemma ExampleUrl2Facts()
    ensures Trim(ExampleLine4) == ExampleLine4 && IsUrlLine(ExampleLine4) && '\n' !in ExampleLine4
  {
    assert ExampleLine4[0] == 'h' && ExampleLine4[|ExampleLine4| - 1] == '2';
    TrimOfTrimmed(ExampleLine4);
    assert ExampleLine4[..4] == UrlPrefix;
  }

  lemma ExampleName1Facts()
    ensures DisplayName(ExampleLine1) == ExampleName1
  {
    TrimmedNameAfterLastComma("#EXTINF:-1 " + LogoOpen + ExampleLogo1 + ['"'], ExampleName1);
  }

  lemma ExampleLogo1Facts()
    ensures Logo(ExampleLine1) == ExampleLogo1
  {
    assert ExampleLine1 == "#EXTINF:-1 " + LogoOpen + ExampleLogo1 + ['"'] + ([','] + ExampleName1);
    LogoAfterPrefix("#EXTINF:-1 ", ExampleLogo1, [','] + ExampleName1);
  }

  lemma ExampleEntry2()
    ensures DisplayName(ExampleLine3) == ExampleName2 && Logo(ExampleLine3) == ""
  {
    TrimmedNameAfterLastComma("#EXTINF:-1", ExampleName2);
    ExampleLine3Facts();
    NoLogoWithoutT(ExampleLine3);
  }

  /**
   * The two-channel playlist parses to both channels in order, the first with
   * its logo and the second with the empty logo.
   */
  lemma WorkedExample()
    ensures ParseLines(Split(ExampleText, '\n')).channels
         == [Channel(ExampleName1, ExampleLogo1, ExampleLine2), Channel(ExampleName2, "", ExampleLine4)]
  {
    ExampleLine1Facts();
    ExampleLine3Facts();
    ExampleUrl1Facts();
    ExampleUrl2Facts();
    ExampleName1Facts();
    ExampleLogo1Facts();
    ExampleEntry2();
    FourLinesSplit(ExampleLine1, ExampleLine2, ExampleLine3, ExampleLine4);
    TwoPairs(ExampleLine1, ExampleLine2, ExampleLine3, ExampleLine4);
  }
}
