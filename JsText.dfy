/**
 * The JavaScript string built-ins that the registration schemas call:
 * `String.prototype.trim`, `split` with a one-character separator,
 * `Array.prototype.join`, `endsWith` and the per-character upper-casing
 * done by `toLocaleUpperCase`. Strings are sequences of Unicode scalar values.
 */
module JsText {

  /** The characters `trim` removes: ECMAScript WhiteSpace and LineTerminator. */
  predicate IsWhitespace(c: char) {
    || c == '\t' || c == '\n' || c == '\U{000B}' || c == '\U{000C}' || c == '\r'
    || c == ' ' || c == '\U{00A0}' || c == '\U{1680}'
    || ('\U{2000}' <= c <= '\U{200A}')
    || c == '\U{2028}' || c == '\U{2029}' || c == '\U{202F}' || c == '\U{205F}'
    || c == '\U{3000}' || c == '\U{FEFF}'
  }

  /** Leading whitespace removed: the result is the suffix of `s` after a run of whitespace. */
  function TrimStart(s: string): (r: string)
    ensures |r| <= |s| && r == s[|s| - |r|..]
    ensures forall i :: 0 <= i < |s| - |r| ==> IsWhitespace(s[i])
    ensures |r| > 0 ==> !IsWhitespace(r[0])
    decreases |s|
  {
    if |s| > 0 && IsWhitespace(s[0]) then TrimStart(s[1..]) else s
  }

  /** Trailing whitespace removed: the result is the prefix of `s` before a run of whitespace. */
  function TrimEnd(s: string): (r: string)
    ensures |r| <= |s| && r == s[..|r|]
    ensures forall i :: |r| <= i < |s| ==> IsWhitespace(s[i])
    ensures |r| > 0 ==> !IsWhitespace(r[|r| - 1])
    decreases |s|
  {
    if |s| > 0 && IsWhitespace(s[|s| - 1]) then TrimEnd(s[..|s| - 1]) else s
  }

  /** `s.trim()`: `s` with its leading and trailing whitespace removed. The
      result neither starts nor ends with whitespace, and it is empty exactly
      when `s` is made of whitespace only. */
  function Trim(s: string): (r: string)
    ensures exists a: nat, b: nat ::
      && a <= b <= |s| && r == s[a..b]
      && (forall i :: 0 <= i < a ==> IsWhitespace(s[i]))
      && (forall i :: b <= i < |s| ==> IsWhitespace(s[i]))
    ensures |r| > 0 ==> !IsWhitespace(r[0]) && !IsWhitespace(r[|r| - 1])
    ensures r == [] <==> forall i :: 0 <= i < |s| ==> IsWhitespace(s[i])
  {
    var t := TrimStart(s);
    var r := TrimEnd(t);
    var a := |s| - |t|;
    assert r == s[a..a + |r|];
    r
  }

  /** A string that neither starts nor ends with whitespace is its own trim. */
  lemma TrimOfTrimmed(s: string)
    requires |s| > 0 ==> !IsWhitespace(s[0]) && !IsWhitespace(s[|s| - 1])
    ensures Trim(s) == s
  {
  }

  /** The index of the first `c` in `s`, or `|s|` when there is none. */
  function IndexOf(s: string, c: char): (k: nat)
    ensures k <= |s|
    ensures k < |s| ==> s[k] == c
    ensures forall i :: 0 <= i < k ==> s[i] != c
  {
    if |s| == 0 then 0
    else if s[0] == c then 0
    else 1 + IndexOf(s[1..], c)
  }

  /** `s.split(sep)` for a one-character separator: the pieces between
      separators, in order; never an empty list, and no piece holds `sep`. */
  function Split(s: string, sep: char): (r: seq<string>)
    ensures |r| >= 1
    ensures forall i :: 0 <= i < |r| ==> sep !in r[i]
    decreases |s|
  {
    var k := IndexOf(s, sep);
    if k == |s| then [s] else [s[..k]] + Split(s[k + 1..], sep)
  }

  /** `ws.join(sep)`: the pieces with one `sep` between neighbours. The join
      of no pieces is empty; otherwise it starts with the first piece followed,
      when there are more, by `sep` (JoinFirstLast gives its last character). */
  function Join(ws: seq<string>, sep: char): (r: string)
    ensures |ws| == 0 ==> r == []
    ensures |ws| >= 1 ==> ws[0] <= r
    ensures |ws| >= 2 ==> |ws[0]| < |r| && r[|ws[0]|] == sep
  {
    if |ws| == 0 then ""
    else if |ws| == 1 then ws[0]
    else ws[0] + [sep] + Join(ws[1..], sep)
  }

  /** `s.endsWith(suffix)`: `s` is some string followed by `suffix`. */
  predicate EndsWith(s: string, suffix: string)
    ensures EndsWith(s, suffix) <==> exists p :: s == p + suffix
  {
    var b := |suffix| <= |s| && s[|s| - |suffix|..] == suffix;
    assert b ==> s == s[..|s| - |suffix|] + suffix;
    assert forall p :: s == p + suffix ==> b by {
      forall p | s == p + suffix ensures b { assert s[|p|..] == suffix; }
    }
    b
  }

  /** Upper-casing of one character, as `toLocaleUpperCase` does for the ASCII
      and Latin-1 lower-case letters that have a one-character upper case. */
  function ToUpper(c: char): (u: char)
    ensures 'a' <= c <= 'z' ==> 'A' <= u <= 'Z' && u as int == c as int - 32
    ensures '\U{00E0}' <= c <= '\U{00FE}' && c != '\U{00F7}' ==> u as int == c as int - 32
    ensures !('a' <= c <= 'z') && !('\U{00E0}' <= c <= '\U{00FE}' && c != '\U{00F7}') ==> u == c
  {
    if 'a' <= c <= 'z' || ('\U{00E0}' <= c <= '\U{00FE}' && c != '\U{00F7}') then (c as int - 32) as char
    else c
  }

  /** Upper-casing never creates or removes whitespace, and it is idempotent. */
  lemma ToUpperFacts(c: char)
    ensures IsWhitespace(ToUpper(c)) == IsWhitespace(c)
    ensures ToUpper(ToUpper(c)) == ToUpper(c)
  {
  }

  /** A string is what comes before position `k`, the character there, and
      what comes after. */
  lemma CutAt(s: string, k: nat)
    requires k < |s|
    ensures s == s[..k] + [s[k]] + s[k + 1..]
  {
  }

  /** A join of a piece followed by at least one more. */
  lemma JoinCons(w: string, ws: seq<string>, sep: char)
    requires |ws| >= 1
    ensures Join([w] + ws, sep) == w + [sep] + Join(ws, sep)
  {
    assert ([w] + ws)[1..] == ws;
  }

  /** Joining the pieces of a split gives back the string. */
  lemma {:induction false} SplitThenJoin(s: string, sep: char)
    ensures Join(Split(s, sep), sep) == s
    decreases |s|
  {
    var k := IndexOf(s, sep);
    if k < |s| {
      var rest := s[k + 1..];
      var ps := Split(rest, sep);
      SplitThenJoin(rest, sep);
      CutAt(s, k);
      assert Split(s, sep) == [s[..k]] + ps;
      JoinCons(s[..k], ps, sep);
    } else {
      assert Split(s, sep) == [s];
    }
  }

  /** Splitting a separator-free piece, a separator and a rest gives the piece
      followed by the pieces of the rest. */
  lemma SplitAtFirst(w: string, rest: string, sep: char)
    requires sep !in w
    ensures Split(w + [sep] + rest, sep) == [w] + Split(rest, sep)
  {
    var s := w + [sep] + rest;
    var k := IndexOf(s, sep);
    assert s[|w|] == sep;
    assert forall i :: 0 <= i < |w| ==> s[i] == w[i];
    assert s[..k] == w;
    assert s[k + 1..] == rest;
  }

  /** Splitting a join of separator-free pieces gives back the pieces. */
  lemma {:induction false} JoinThenSplit(ws: seq<string>, sep: char)
    requires |ws| >= 1
    requires forall i :: 0 <= i < |ws| ==> sep !in ws[i]
    ensures Split(Join(ws, sep), sep) == ws
  {
    if |ws| == 1 {
      assert IndexOf(ws[0], sep) == |ws[0]|;
    } else {
      var w := ws[0];
      assert ws == [w] + ws[1..];
      JoinCons(w, ws[1..], sep);
      SplitAtFirst(w, Join(ws[1..], sep), sep);
      JoinThenSplit(ws[1..], sep);
    }
  }

  /** A join of non-empty pieces starts with the first piece's first character
      and ends with the last piece's last character. */
  lemma {:induction false} JoinFirstLast(ws: seq<string>, sep: char)
    requires |ws| >= 1
    requires forall i :: 0 <= i < |ws| ==> |ws[i]| > 0
    ensures var s := Join(ws, sep); var last := ws[|ws| - 1];
      |s| > 0 && s[0] == ws[0][0] && s[|s| - 1] == last[|last| - 1]
  {
    var s := Join(ws, sep);
    assert s[0] == ws[0][0];
    if |ws| > 1 {
      var t := Join(ws[1..], sep);
      JoinFirstLast(ws[1..], sep);
      JoinCons(ws[0], ws[1..], sep);
      assert ws[1..][|ws| - 2] == ws[|ws| - 1];
      assert s[|s| - 1] == t[|t| - 1];
    }
  }

  /** No two separators stand next to each other in `s`. */
  predicate NoAdjacent(s: string, sep: char) {
    forall k :: 0 <= k < |s| - 1 && s[k] == sep ==> s[k + 1] != sep
  }

  /** Every piece is non-empty. */
  predicate AllNonEmpty(ws: seq<string>) {
    forall i :: 0 <= i < |ws| ==> |ws[i]| > 0
  }

  /** `s` is non-empty, starts and ends with something other than `sep`, and
      never holds two `sep`s in a row. */
  predicate Separated(s: string, sep: char) {
    |s| > 0 && s[0] != sep && s[|s| - 1] != sep && NoAdjacent(s, sep)
  }

  lemma AllNonEmptyCons(w: string, ws: seq<string>)
    ensures AllNonEmpty([w] + ws) <==> |w| > 0 && AllNonEmpty(ws)
  {
    var c := [w] + ws;
    if |w| > 0 && AllNonEmpty(ws) {
      forall i | 0 <= i < |c| ensures |c[i]| > 0 {
        if i > 0 { assert c[i] == ws[i - 1]; }
      }
    }
    if AllNonEmpty(c) {
      assert |c[0]| > 0;
      forall i | 0 <= i < |ws| ensures |ws[i]| > 0 {
        assert c[i + 1] == ws[i];
      }
    }
  }

  /** Cutting `s` at its first separator keeps it separated exactly when the
      part before the cut is non-empty and the rest is separated. */
  lemma SeparatedAtFirst(s: string, sep: char, k: nat)
    requires k == IndexOf(s, sep) && k < |s|
    ensures Separated(s, sep) <==> k > 0 && Separated(s[k + 1..], sep)
  {
    var rest := s[k + 1..];
    if k > 0 && Separated(rest, sep) {
      forall j | 0 <= j < |s| - 1 && s[j] == sep ensures s[j + 1] != sep {
        if j > k { assert s[j] == rest[j - k - 1] && s[j + 1] == rest[j - k]; }
      }
    }
    if Separated(s, sep) {
      assert k > 0 && |rest| > 0;
      assert rest[0] == s[k + 1];
      forall j | 0 <= j < |rest| - 1 && rest[j] == sep ensures rest[j + 1] != sep {
        assert rest[j] == s[k + 1 + j] && rest[j + 1] == s[k + 2 + j];
      }
    }
  }

  /** Every piece of a split is non-empty exactly when `s` is non-empty, starts
      and ends with something other than `sep`, and never holds two `sep`s in a row. */
  lemma {:induction false} SplitPiecesNonEmpty(s: string, sep: char)
    ensures AllNonEmpty(Split(s, sep)) <==> Separated(s, sep)
    decreases |s|
  {
    var k := IndexOf(s, sep);
    if k < |s| {
      var rest := s[k + 1..];
      assert Split(s, sep) == [s[..k]] + Split(rest, sep);
      SplitPiecesNonEmpty(rest, sep);
      AllNonEmptyCons(s[..k], Split(rest, sep));
      SeparatedAtFirst(s, sep, k);
    } else {
      assert Split(s, sep) == [s];
      if |s| == 0 {
        assert |Split(s, sep)[0]| == 0;
      }
    }
  }
}
