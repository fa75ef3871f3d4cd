/**
  The two string helpers of the product console, built from the ECMAScript
  string operations they use:
  - the image-URL normaliser of the "other images" textarea,
    `value.split(',').map(url => url.trim()).filter(url => url)`;
  - the session-token lookup in the cookie jar,
    `document.cookie.split("; ").find(row => row.startsWith("hexToken="))?.split("=")[1]`.
*/
module Strings {
  import opened Wrappers

  // ---------------------------------------------------------------------
  // String.prototype.trim
  // ---------------------------------------------------------------------

  /** The code points `trim` removes: ECMAScript's WhiteSpace and LineTerminator. */
  predicate IsWhitespace(c: char) {
    c == '\t' || c == '\n' || c == '\U{000B}' || c == '\U{000C}' || c == '\r' || c == ' '
    || c == '\U{00A0}' || c == '\U{1680}' || ('\U{2000}' <= c <= '\U{200A}')
    || c == '\U{2028}' || c == '\U{2029}' || c == '\U{202F}' || c == '\U{205F}'
    || c == '\U{3000}' || c == '\U{FEFF}'
  }

  predicate AllWhitespace(s: string) {
    forall i :: 0 <= i < |s| ==> IsWhitespace(s[i])
  }

  /** Neither end of `s` is whitespace. */
  predicate IsTrimmed(s: string) {
    s == [] || (!IsWhitespace(s[0]) && !IsWhitespace(s[|s| - 1]))
  }

  /** `r` sits at index `k` of `s`, and everything in `s` before and after it is whitespace. */
  predicate IsCoreAt(s: string, r: string, k: int) {
    && 0 <= k <= |s| - |r|
    && s[k..k + |r|] == r
    && (forall i :: 0 <= i < k ==> IsWhitespace(s[i]))
    && (forall i :: k + |r| <= i < |s| ==> IsWhitespace(s[i]))
  }

  /** The index of the first non-whitespace character of `s` at or after `i` (or `|s|`). */
  function SkipSpaceFrom(s: string, i: nat): (b: nat)
    requires i <= |s|
    ensures i <= b <= |s|
    ensures forall k :: i <= k < b ==> IsWhitespace(s[k])
    ensures b < |s| ==> !IsWhitespace(s[b])
    decreases |s| - i
  {
    if i < |s| && IsWhitespace(s[i]) then SkipSpaceFrom(s, i + 1) else i
  }

  /** One past the last non-whitespace character of `s[b..e]` (or `b`). */
  function SkipSpaceBack(s: string, b: nat, e: nat): (e': nat)
    requires b <= e <= |s|
    ensures b <= e' <= e
    ensures forall k :: e' <= k < e ==> IsWhitespace(s[k])
    ensures e' > b ==> !IsWhitespace(s[e' - 1])
    decreases e
  {
    if e > b && IsWhitespace(s[e - 1]) then SkipSpaceBack(s, b, e - 1) else e
  }

  /** `s.trim()`: `s` is some whitespace, then the result, then some whitespace. */
  function Trim(s: string): (r: string)
    ensures IsTrimmed(r)
    ensures IsCoreAt(s, r, SkipSpaceFrom(s, 0))
    ensures r == [] <==> AllWhitespace(s)
  {
    var b := SkipSpaceFrom(s, 0);
    var e := SkipSpaceBack(s, b, |s|);
    assert e > b ==> s[b..e][0] == s[b] && s[b..e][e - b - 1] == s[e - 1];
    s[b..e]
  }

  /** A string has only one trimmed core: `trim` is determined by its contract. */
  lemma {:induction false} CoreIsUnique(s: string, r1: string, k1: int, r2: string, k2: int)
    requires IsTrimmed(r1) && IsCoreAt(s, r1, k1)
    requires IsTrimmed(r2) && IsCoreAt(s, r2, k2)
    ensures r1 == r2
  {
    if r1 != [] && r2 != [] {
      assert s[k1] == r1[0] && s[k2] == r2[0];
      assert s[k1 + |r1| - 1] == r1[|r1| - 1] && s[k2 + |r2| - 1] == r2[|r2| - 1];
      assert k1 == k2;
      assert k1 + |r1| == k2 + |r2|;
    }
  }

  lemma {:induction false} TrimKeepsTrimmed(s: string)
    requires IsTrimmed(s)
    ensures Trim(s) == s
  {
    assert IsCoreAt(s, s, 0) by { assert s[0..|s|] == s; }
    CoreIsUnique(s, s, 0, Trim(s), SkipSpaceFrom(s, 0));
  }

  /** Leading whitespace does not survive `trim`. */
  lemma {:induction false} TrimSkipsLeading(w: char, s: string)
    requires IsWhitespace(w)
    ensures Trim([w] + s) == Trim(s)
  {
    var ws, r, k := [w] + s, Trim(s), SkipSpaceFrom(s, 0);
    assert ws[k + 1..k + 1 + |r|] == s[k..k + |r|];
    forall i | 0 <= i < k + 1 ensures IsWhitespace(ws[i]) {
      if i > 0 { assert ws[i] == s[i - 1]; }
    }
    forall i | k + 1 + |r| <= i < |ws| ensures IsWhitespace(ws[i]) {
      assert ws[i] == s[i - 1];
    }
    assert IsCoreAt(ws, r, k + 1);
    CoreIsUnique(ws, r, k + 1, Trim(ws), SkipSpaceFrom(ws, 0));
  }

  lemma {:induction false} TrimKeepsOnlyItsInput(s: string, c: char)
    requires c in Trim(s)
    ensures c in s
  {
    var r, k := Trim(s), SkipSpaceFrom(s, 0);
    var i :| 0 <= i < |r| && r[i] == c;
    assert s[k..k + |r|][i] == s[k + i];
  }

  // ---------------------------------------------------------------------
  // String.prototype.split and Array.prototype.join
  // ---------------------------------------------------------------------

  /** `xs.join(sep)` */
  function Join(xs: seq<string>, sep: string): string {
    if xs == [] then "" else if |xs| == 1 then xs[0] else xs[0] + sep + Join(xs[1..], sep)
  }

  /** `p` occurs in `s` starting at index `i`. */
  predicate OccursAt(p: string, s: string, i: int) {
    0 <= i && i + |p| <= |s| && s[i..i + |p|] == p
  }

  /**
    `s.split(sep)` for a non-empty separator: the pieces between the leftmost
    non-overlapping occurrences of `sep`, so there is always at least one piece
    (`"".split(sep)` is `[""]`), and joining them again with `sep` gives `s` back.
  */
  function Split(s: string, sep: string): (pieces: seq<string>)
    requires sep != []
    ensures |pieces| >= 1
    ensures Join(pieces, sep) == s
    decreases |s|
  {
    if |s| < |sep| then
      [s]
    else if s[..|sep|] == sep then
      var rest := Split(s[|sep|..], sep);
      assert s == sep + s[|sep|..];
      [""] + rest
    else
      var rest := Split(s[1..], sep);
      JoinConsChar(s[0], rest, sep);
      assert s == [s[0]] + s[1..];
      [[s[0]] + rest[0]] + rest[1..]
  }

  lemma {:induction false} JoinConsChar(c: char, xs: seq<string>, sep: string)
    requires |xs| >= 1
    ensures Join([[c] + xs[0]] + xs[1..], sep) == [c] + Join(xs, sep)
  {
    var ys := [[c] + xs[0]] + xs[1..];
    assert ys[1..] == xs[1..];
  }

  /** No piece of a split contains the separator. */
  lemma {:induction false} SplitPiecesAvoidSeparator(s: string, sep: string)
    requires sep != []
    ensures forall j, i :: 0 <= j < |Split(s, sep)| ==> !OccursAt(sep, Split(s, sep)[j], i)
    decreases |s|
  {
    var pieces := Split(s, sep);
    if |s| < |sep| {
    } else if s[..|sep|] == sep {
      SplitPiecesAvoidSeparator(s[|sep|..], sep);
      assert pieces[1..] == Split(s[|sep|..], sep);
    } else {
      var rest := Split(s[1..], sep);
      SplitPiecesAvoidSeparator(s[1..], sep);
      assert pieces[1..] == rest[1..];
      var first := [s[0]] + rest[0];
      // the first piece is a prefix of `s`, and `s` does not start with `sep`
      assert rest[0] <= Join(rest, sep) by {
        if |rest| > 1 { assert Join(rest, sep) == rest[0] + (sep + Join(rest[1..], sep)); }
      }
      assert first <= s;
      forall i | OccursAt(sep, first, i) ensures false {
        if i > 0 {
          assert first[i..i + |sep|] == rest[0][i - 1..i - 1 + |sep|];
          assert OccursAt(sep, rest[0], i - 1);
        }
      }
    }
  }

  /** For a one-character separator: no piece contains that character. */
  lemma {:induction false} SplitPiecesAvoidChar(s: string, c: char)
    ensures forall p :: p in Split(s, [c]) ==> c !in p
  {
    SplitPiecesAvoidSeparator(s, [c]);
    forall p | p in Split(s, [c]) ensures c !in p {
      var j :| 0 <= j < |Split(s, [c])| && Split(s, [c])[j] == p;
      if c in p {
        var i :| 0 <= i < |p| && p[i] == c;
        assert OccursAt([c], p, i);
      }
    }
  }

  /** A string without the separator character is a single piece. */
  lemma {:induction false} SplitWithoutChar(s: string, c: char)
    requires c !in s
    ensures Split(s, [c]) == [s]
    decreases |s|
  {
    if s != [] {
      SplitWithoutChar(s[1..], c);
      assert s == [s[0]] + s[1..];
    }
  }

  /**
    Splitting on a character is a homomorphism over that character: the pieces
    of `a + c + b` are the pieces of `a` followed by the pieces of `b`.
  */
  lemma {:induction false} SplitAroundChar(a: string, c: char, b: string)
    ensures Split(a + [c] + b, [c]) == Split(a, [c]) + Split(b, [c])
    decreases |a|
  {
    var s := a + [c] + b;
    if a == [] {
      assert s == [c] + b;
      assert s[..1] == [c] && s[1..] == b;
    } else {
      assert s[1..] == a[1..] + [c] + b;
      assert s[..1] == a[..1];
      SplitAroundChar(a[1..], c, b);
    }
  }

  /** The first piece of a split on `c` is the longest prefix without `c`. */
  lemma {:induction false} SplitFirstPiece(s: string, c: char)
    ensures var p := Split(s, [c])[0];
      p <= s && c !in p && (|p| == |s| || s[|p|] == c)
  {
    var pieces := Split(s, [c]);
    SplitPiecesAvoidChar(s, c);
    assert pieces[0] in pieces;
    if |pieces| > 1 {
      assert s == pieces[0] + ([c] + Join(pieces[1..], [c]));
    }
  }

  // ---------------------------------------------------------------------
  // The image-URL normaliser
  // ---------------------------------------------------------------------

  /** An element the normaliser can produce: non-empty, trimmed, and comma-free. */
  predicate IsCleanUrl(u: string) {
    u != [] && IsTrimmed(u) && ',' !in u
  }

  predicate AllClean(urls: seq<string>) {
    forall i :: 0 <= i < |urls| ==> IsCleanUrl(urls[i])
  }

  /** `xs.map(x => x.trim())` */
  function TrimEach(xs: seq<string>): (ys: seq<string>)
    ensures |ys| == |xs| && forall i :: 0 <= i < |xs| ==> ys[i] == Trim(xs[i])
  {
    if xs == [] then [] else [Trim(xs[0])] + TrimEach(xs[1..])
  }

  lemma {:induction false} TrimEachAppend(xs: seq<string>, ys: seq<string>)
    ensures TrimEach(xs + ys) == TrimEach(xs) + TrimEach(ys)
  {
    if xs == [] {
      assert xs + ys == ys;
    } else {
      assert (xs + ys)[1..] == xs[1..] + ys;
      TrimEachAppend(xs[1..], ys);
    }
  }

  /**
    `xs.filter(x => x)`: keeps the non-empty strings, each as often as it
    occurs, in order (`DropEmptyOfOne` and `DropEmptyAppend` fix it on every input).
  */
  function DropEmpty(xs: seq<string>): (ys: seq<string>)
    ensures forall y :: y in ys <==> y in xs && y != []
    ensures forall y :: multiset(ys)[y] == if y == [] then 0 else multiset(xs)[y]
  {
    if xs == [] then []
    else
      assert xs == [xs[0]] + xs[1..];
      (if xs[0] == [] then [] else [xs[0]]) + DropEmpty(xs[1..])
  }

  /** A single string is kept exactly when it is non-empty. */
  lemma {:induction false} DropEmptyOfOne(x: string)
    ensures DropEmpty([x]) == if x == [] then [] else [x]
  {
    assert [x][1..] == [];
  }

  lemma {:induction false} DropEmptyAppend(xs: seq<string>, ys: seq<string>)
    ensures DropEmpty(xs + ys) == DropEmpty(xs) + DropEmpty(ys)
  {
    if xs != [] {
      assert (xs + ys)[1..] == xs[1..] + ys;
      DropEmptyAppend(xs[1..], ys);
    } else {
      assert xs + ys == ys;
    }
  }

  /**
    The image-URL normaliser of the "other images" textarea: split on ',',
    trim every piece, drop the empty ones.
  */
  function SplitImageUrls(value: string): seq<string> {
    DropEmpty(TrimEach(Split(value, ",")))
  }

  /** Every URL the normaliser yields is clean. */
  lemma {:induction false} SplitImageUrlsAreClean(value: string)
    ensures AllClean(SplitImageUrls(value))
  {
    var pieces := Split(value, ",");
    var trimmed := TrimEach(pieces);
    var urls := DropEmpty(trimmed);
    SplitPiecesAvoidChar(value, ',');
    forall i | 0 <= i < |urls| ensures IsCleanUrl(urls[i]) {
      assert urls[i] in urls;
      var j :| 0 <= j < |trimmed| && trimmed[j] == urls[i];
      assert pieces[j] in pieces;
      if ',' in urls[i] { TrimKeepsOnlyItsInput(pieces[j], ','); }
    }
  }

  /** Order: the URLs of `a + "," + b` are the URLs of `a` followed by those of `b`. */
  lemma {:induction false} SplitImageUrlsAround(a: string, b: string)
    ensures SplitImageUrls(a + "," + b) == SplitImageUrls(a) + SplitImageUrls(b)
  {
    SplitAroundChar(a, ',', b);
    var pa, pb := Split(a, ","), Split(b, ",");
    TrimEachAppend(pa, pb);
    DropEmptyAppend(TrimEach(pa), TrimEach(pb));
  }

  /** A comma-free value yields its trimmed self, or nothing when it is blank. */
  lemma {:induction false} SplitImageUrlsOfOne(s: string)
    requires ',' !in s
    ensures SplitImageUrls(s) == if AllWhitespace(s) then [] else [Trim(s)]
  {
    SplitWithoutChar(s, ',');
    assert TrimEach([s]) == [Trim(s)];
    assert DropEmpty([Trim(s)]) == (if Trim(s) == [] then [] else [Trim(s)]) + DropEmpty([]);
  }

  /** Whitespace at the start of the value does not change the URLs. */
  lemma {:induction false} SplitImageUrlsSkipsLeading(w: char, s: string)
    requires IsWhitespace(w)
    ensures SplitImageUrls([w] + s) == SplitImageUrls(s)
  {
    var ps, ws := Split(s, ","), [w] + s;
    assert ws[..1] != "," && ws[1..] == s;
    var qs := Split(ws, ",");
    assert qs == [[w] + ps[0]] + ps[1..];
    TrimSkipsLeading(w, ps[0]);
    var tq, tp := TrimEach(qs), TrimEach(ps);
    assert |tq| == |tp|;
    forall i | 0 <= i < |tq| ensures tq[i] == tp[i] {
      if i > 0 { assert qs[i] == ps[i]; }
    }
    assert tq == tp;
  }

  /**
    Round trip with the textarea's display, `imagesUrl.join(', ')`: reading back
    the displayed text of a list of clean URLs gives that same list.
  */
  lemma {:induction false} SplitImageUrlsOfJoin(xs: seq<string>)
    requires AllClean(xs)
    ensures SplitImageUrls(Join(xs, ", ")) == xs
    decreases |xs|
  {
    if xs == [] {
      SplitImageUrlsOfOne("");
      return;
    }
    var u := xs[0];
    SplitImageUrlsOfClean(u);
    if |xs| == 1 {
      assert xs == [u];
      return;
    }
    var tail := xs[1..];
    assert AllClean(tail) by {
      forall i | 0 <= i < |tail| ensures IsCleanUrl(tail[i]) { assert tail[i] == xs[i + 1]; }
    }
    SplitImageUrlsOfJoin(tail);
    var rest := Join(tail, ", ");
    assert Join(xs, ", ") == u + ", " + rest;
    SplitImageUrlsOfJoinCons(u, rest);
    assert xs == [u] + tail;
  }

  /** A clean URL reads back as itself. */
  lemma {:induction false} SplitImageUrlsOfClean(u: string)
    requires IsCleanUrl(u)
    ensures SplitImageUrls(u) == [u]
  {
    SplitImageUrlsOfOne(u);
    TrimKeepsTrimmed(u);
  }

  lemma {:induction false} SplitImageUrlsOfJoinCons(u: string, rest: string)
    ensures SplitImageUrls(u + ", " + rest) == SplitImageUrls(u) + SplitImageUrls(rest)
  {
    assert u + ", " + rest == u + "," + ([' '] + rest);
    SplitImageUrlsAround(u, [' '] + rest);
    SplitImageUrlsSkipsLeading(' ', rest);
  }

  /** Re-reading the normalised list from its display changes nothing: the normaliser is idempotent. */
  lemma {:induction false} SplitImageUrlsIdempotent(value: string)
    ensures SplitImageUrls(Join(SplitImageUrls(value), ", ")) == SplitImageUrls(value)
  {
    SplitImageUrlsAreClean(value);
    SplitImageUrlsOfJoin(SplitImageUrls(value));
  }

  // ---------------------------------------------------------------------
  // The session-token lookup
  // ---------------------------------------------------------------------

  /** The cookie that holds the session token, with its `=`. */
  const TokenPrefix: string := "hexToken="

  /** `rows.find(row => row.startsWith(prefix))`, as the index of the first such row. */
  function FindRow(rows: seq<string>, prefix: string): (k: Option<nat>)
    ensures k.Some? ==> k.value < |rows| && prefix <= rows[k.value]
                        && forall j :: 0 <= j < k.value ==> !(prefix <= rows[j])
    ensures k.None? ==> forall j :: 0 <= j < |rows| ==> !(prefix <= rows[j])
    decreases |rows|
  {
    if rows == [] then None
    else if prefix <= rows[0] then Some(0)
    else match FindRow(rows[1..], prefix)
      case None => None
      case Some(j) => Some(j + 1)
  }

  /**
    `v` is the value of a `hexToken` row: the run of characters after
    "hexToken=" up to the next '=' or the end of the row.
  */
  predicate IsTokenOf(row: string, v: string) {
    TokenPrefix + v <= row && '=' !in v
    && (|row| == |TokenPrefix| + |v| || row[|TokenPrefix| + |v|] == '=')
  }

  /**
    The session token read from `document.cookie`: the value of the first
    "; "-separated row that starts with "hexToken=", where an empty value
    counts as no token at all.
  */
  function CookieToken(cookie: string): (token: Option<string>)
    ensures token.Some? ==> token.value != []
    ensures var rows := Split(cookie, "; ");
      match FindRow(rows, TokenPrefix)
      case None => token.None?
      case Some(k) =>
        && (token.None? ==> IsTokenOf(rows[k], ""))
        && (token.Some? ==> IsTokenOf(rows[k], token.value))
  {
    var rows := Split(cookie, "; ");
    match FindRow(rows, TokenPrefix)
    case None => None
    case Some(k) =>
      var row := rows[k];
      var rest := row[|TokenPrefix|..];
      assert row == "hexToken" + "=" + rest;
      SplitAroundChar("hexToken", '=', rest);
      SplitWithoutChar("hexToken", '=');
      var parts := Split(row, "=");
      assert parts[1] == Split(rest, "=")[0];
      SplitFirstPiece(rest, '=');
      if |parts| < 2 || parts[1] == "" then None else Some(parts[1])
  }
}
