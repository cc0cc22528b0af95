/**
 * The three JavaScript string operations the playlist parser relies on:
 * `String.prototype.trim`, `String.prototype.split` with a
 * one-character separator, and `String.prototype.startsWith`.
 * Strings are sequences of code points.
 */
module JsString {

  /** ECMAScript WhiteSpace and LineTerminator code points, the set `trim` removes. */
  predicate IsWhitespace(c: char) {
    || c == '\t' || c == '\n' || c == '\U{B}' || c == '\U{C}' || c == '\r' || c == ' '
    || c == '\U{A0}' || c == '\U{1680}' || ('\U{2000}' <= c <= '\U{200A}')
    || c == '\U{2028}' || c == '\U{2029}' || c == '\U{202F}' || c == '\U{205F}'
    || c == '\U{3000}' || c == '\U{FEFF}'
  }

  /** A string that `trim` leaves as it is: empty, or with no whitespace at either end. */
  predicate IsTrimmed(s: string) {
    s == [] || (!IsWhitespace(s[0]) && !IsWhitespace(s[|s| - 1]))
  }

  /** Drops the leading whitespace. */
  function TrimStart(s: string): string {
    if |s| > 0 && IsWhitespace(s[0]) then TrimStart(s[1..]) else s
  }

  /** What `TrimStart` drops is whitespace, and what it keeps does not start with any. */
  lemma {:induction false} TrimStartSpec(s: string)
    ensures var r := TrimStart(s); |r| <= |s| && r == s[|s| - |r|..]
    ensures var r := TrimStart(s); forall k :: 0 <= k < |s| - |r| ==> IsWhitespace(s[k])
    ensures var r := TrimStart(s); r == [] || !IsWhitespace(r[0])
  {
    if |s| > 0 && IsWhitespace(s[0]) {
      TrimStartSpec(s[1..]);
    }
  }

  /** Drops the trailing whitespace. */
  function TrimEnd(s: string): string {
    if |s| > 0 && IsWhitespace(s[|s| - 1]) then TrimEnd(s[..|s| - 1]) else s
  }

  /** What `TrimEnd` drops is whitespace, and what it keeps does not end with any. */
  lemma {:induction false} TrimEndSpec(s: string)
    ensures var r := TrimEnd(s); |r| <= |s| && r == s[..|r|]
    ensures var r := TrimEnd(s); forall k :: |r| <= k < |s| ==> IsWhitespace(s[k])
    ensures var r := TrimEnd(s); r == [] || !IsWhitespace(r[|r| - 1])
  {
    if |s| > 0 && IsWhitespace(s[|s| - 1]) {
      TrimEndSpec(s[..|s| - 1]);
    }
  }

  /** `s.trim()`. */
  function Trim(s: string): (r: string) {
    TrimStart(TrimEnd(s))
  }

  /** `trim` leaves no whitespace at either end. */
  lemma TrimIsTrimmed(s: string)
    ensures IsTrimmed(Trim(s))
  {
    var e := TrimEnd(s);
    TrimEndSpec(s);
    TrimStartSpec(e);
  }

  /** The trimmed string is an infix of the original. */
  lemma TrimInfix(s: string) returns (i: nat)
    ensures i + |Trim(s)| <= |s| && Trim(s) == s[i..i + |Trim(s)|]
  {
    var e := TrimEnd(s);
    TrimEndSpec(s);
    TrimStartSpec(e);
    i := |e| - |Trim(s)|;
  }

  /** Trimming keeps every character that is not whitespace, so a string with one trims to a non-empty one. */
  lemma TrimKeepsNonWhitespace(s: string, k: nat)
    requires k < |s| && !IsWhitespace(s[k])
    ensures Trim(s) != []
  {
    var e := TrimEnd(s);
    TrimEndSpec(s);
    TrimStartSpec(e);
    assert k < |e|;
    assert e[k] == s[k];
  }

  /** Trimming a trimmed string changes nothing. */
  lemma TrimOfTrimmed(s: string)
    requires IsTrimmed(s)
    ensures Trim(s) == s
  {
    assert TrimEnd(s) == s;
  }

  /** Trimming removes characters, never adds one. */
  lemma TrimKeepsAbsent(s: string, c: char)
    requires c !in s
    ensures c !in Trim(s)
  {
    var i := TrimInfix(s);
    forall j | 0 <= j < |Trim(s)| ensures Trim(s)[j] != c {
      assert Trim(s)[j] == s[i + j];
    }
  }

  /** `s.startsWith(prefix)`. */
  predicate StartsWith(s: string, prefix: string) {
    |prefix| <= |s| && s[..|prefix|] == prefix
  }

  /**
   * `s.split(sep)` for a one-character separator: the pieces between the
   * separators, so one more piece than there are separators.
   */
  function Split(s: string, sep: char): (r: seq<string>)
    ensures |r| >= 1
  {
    if |s| == 0 then [""]
    else
      var rest := Split(s[1..], sep);
      if s[0] == sep then [""] + rest
      else [[s[0]] + rest[0]] + rest[1..]
  }

  /** No piece holds the separator. */
  lemma {:induction false} SplitLacksSep(s: string, sep: char)
    ensures forall k :: 0 <= k < |Split(s, sep)| ==> sep !in Split(s, sep)[k]
  {
    if |s| > 0 {
      SplitLacksSep(s[1..], sep);
    }
  }

  /** The inverse of `Split`: joins pieces, each but the last followed by a separator. */
  function Terminated(pieces: seq<string>, sep: char): (r: string)
    ensures |r| >= |pieces|
  {
    if pieces == [] then "" else pieces[0] + [sep] + Terminated(pieces[1..], sep)
  }

  lemma {:induction false} TerminatedAppend(a: seq<string>, b: seq<string>, sep: char)
    ensures Terminated(a + b, sep) == Terminated(a, sep) + Terminated(b, sep)
  {
    if a == [] {
      assert a + b == b;
    } else {
      assert (a + b)[0] == a[0];
      assert (a + b)[1..] == a[1..] + b;
      TerminatedAppend(a[1..], b, sep);
    }
  }

  /** The last piece of a split: what follows the last separator. */
  function LastPiece(s: string, sep: char): string {
    var p := Split(s, sep); p[|p| - 1]
  }

  /** All pieces but the last: those that were followed by a separator. */
  function CompletePieces(s: string, sep: char): seq<string> {
    var p := Split(s, sep); p[..|p| - 1]
  }

  lemma {:induction false} SplitNoSep(t: string, sep: char)
    requires sep !in t
    ensures Split(t, sep) == [t]
  {
    if |t| > 0 {
      assert t[0] != sep;
      assert sep !in t[1..] by {
        forall k | 0 <= k < |t| - 1 ensures t[1..][k] != sep { assert t[1..][k] == t[k + 1]; }
      }
      SplitNoSep(t[1..], sep);
      assert [t[0]] + t[1..] == t;
    }
  }

  lemma {:induction false} SplitPiece(l: string, r: string, sep: char)
    requires sep !in l
    ensures Split(l + [sep] + r, sep) == [l] + Split(r, sep)
  {
    if |l| > 0 {
      var s := l + [sep] + r;
      assert s[0] == l[0] != sep;
      assert s[1..] == l[1..] + [sep] + r;
      assert sep !in l[1..] by {
        forall k | 0 <= k < |l| - 1 ensures l[1..][k] != sep { assert l[1..][k] == l[k + 1]; }
      }
      SplitPiece(l[1..], r, sep);
      assert [l[0]] + l[1..] == l;
    } else {
      assert l + [sep] + r == [sep] + r;
    }
  }

  /** Splitting a joined sequence of separator-free pieces gives the pieces back. */
  lemma {:induction false} SplitTerminated(pieces: seq<string>, t: string, sep: char)
    requires forall k :: 0 <= k < |pieces| ==> sep !in pieces[k]
    requires sep !in t
    ensures Split(Terminated(pieces, sep) + t, sep) == pieces + [t]
  {
    if pieces == [] {
      assert Terminated(pieces, sep) + t == t;
      SplitNoSep(t, sep);
    } else {
      var rest := Terminated(pieces[1..], sep) + t;
      assert Terminated(pieces, sep) + t == pieces[0] + [sep] + rest;
      SplitPiece(pieces[0], rest, sep);
      SplitTerminated(pieces[1..], t, sep);
      assert pieces == [pieces[0]] + pieces[1..];
    }
  }

  /** Every string is its complete pieces, each followed by a separator, then its last piece. */
  lemma {:induction false} SplitJoin(s: string, sep: char)
    ensures s == Terminated(CompletePieces(s, sep), sep) + LastPiece(s, sep)
  {
    if |s| > 0 {
      var rest := Split(s[1..], sep);
      SplitJoin(s[1..], sep);
      assert s[1..] == Terminated(rest[..|rest| - 1], sep) + rest[|rest| - 1];
      if s[0] == sep {
        assert CompletePieces(s, sep) == [""] + rest[..|rest| - 1];
      } else if |rest| == 1 {
        assert CompletePieces(s, sep) == [];
      } else {
        var init := rest[..|rest| - 1];
        assert CompletePieces(s, sep) == [[s[0]] + rest[0]] + init[1..];
        assert init == [init[0]] + init[1..];
      }
    }
  }

  /** A non-empty join ends with the separator. */
  lemma {:induction false} TerminatedEndsWithSep(pieces: seq<string>, sep: char)
    requires pieces != []
    ensures var r := Terminated(pieces, sep); |r| > 0 && r[|r| - 1] == sep
  {
    if pieces[1..] != [] {
      TerminatedEndsWithSep(pieces[1..], sep);
    }
  }

  /** `t` is the text after the last `sep` of `s` (all of `s` when it has none). */
  predicate AfterLastSep(s: string, t: string, sep: char) {
    && |t| <= |s|
    && t == s[|s| - |t|..]
    && sep !in t
    && (|t| < |s| ==> s[|s| - |t| - 1] == sep)
  }

  lemma LastPieceIsAfterLastSep(s: string, sep: char)
    ensures AfterLastSep(s, LastPiece(s, sep), sep)
  {
    SplitJoin(s, sep);
    SplitLacksSep(s, sep);
    var c := CompletePieces(s, sep);
    if c != [] {
      TerminatedEndsWithSep(c, sep);
    }
  }

  /** When the string ends with the separator, the last piece is empty. */
  lemma LastPieceAfterFinalSep(s: string, sep: char)
    requires |s| > 0 && s[|s| - 1] == sep
    ensures LastPiece(s, sep) == ""
  {
    LastPieceIsAfterLastSep(s, sep);
  }

  /** Appending text re-splits only the last piece. */
  lemma SplitAppend(s: string, c: string, sep: char)
    ensures CompletePieces(s + c, sep) == CompletePieces(s, sep) + CompletePieces(LastPiece(s, sep) + c, sep)
    ensures LastPiece(s + c, sep) == LastPiece(LastPiece(s, sep) + c, sep)
  {
    var u := LastPiece(s, sep) + c;
    SplitJoin(s, sep);
    SplitJoin(u, sep);
    var a := CompletePieces(s, sep);
    var b := CompletePieces(u, sep);
    TerminatedAppend(a, b, sep);
    SplitLacksSep(s, sep);
    SplitLacksSep(u, sep);
    calc {
      s + c;
      Terminated(a, sep) + LastPiece(s, sep) + c;
      Terminated(a, sep) + u;
      Terminated(a, sep) + (Terminated(b, sep) + LastPiece(u, sep));
      Terminated(a + b, sep) + LastPiece(u, sep);
    }
    assert forall k :: 0 <= k < |a + b| ==> sep !in (a + b)[k] by {
      forall k | 0 <= k < |a + b| ensures sep !in (a + b)[k] {
        if k < |a| { assert (a + b)[k] == Split(s, sep)[k]; }
        else { assert (a + b)[k] == Split(u, sep)[k - |a|]; }
      }
    }
    SplitTerminated(a + b, LastPiece(u, sep), sep);
  }
}
