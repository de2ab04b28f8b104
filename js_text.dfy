/**
 * The JavaScript string built-ins the feed parsers rely on:
 * `String.prototype.trim`, `split(',')`, `split(/\r?\n/)` and the
 * byte-order-mark check `text.charCodeAt(0) === 0xFEFF`.
 */
module JsText {

  /** U+FEFF, the byte order mark (also ZWNBSP, which `trim` treats as white space). */
  const Bom: char := '\U{FEFF}'

  /** ECMAScript WhiteSpace or LineTerminator: exactly what `trim` removes. */
  predicate IsWhitespace(c: char)
  {
    || c == '\t' || c == '\U{000B}' || c == '\U{000C}' || c == ' ' || c == '\U{00A0}'
    || c == '\U{FEFF}' || c == '\U{1680}' || ('\U{2000}' <= c <= '\U{200A}')
    || c == '\U{202F}' || c == '\U{205F}' || c == '\U{3000}'
    || c == '\n' || c == '\r' || c == '\U{2028}' || c == '\U{2029}'
  }

  predicate AllWhitespace(s: string)
  {
    forall i :: 0 <= i < |s| ==> IsWhitespace(s[i])
  }

  /** Leading white space removed. */
  function TrimStart(s: string): string
  {
    if s != [] && IsWhitespace(s[0]) then TrimStart(s[1..]) else s
  }

  /** Trailing white space removed. */
  function TrimEnd(s: string): string
  {
    if s != [] && IsWhitespace(s[|s| - 1]) then TrimEnd(s[..|s| - 1]) else s
  }

  /** TrimStart keeps the longest suffix that does not start with white space. */
  lemma {:induction false} TrimStartShape(s: string)
    ensures var r := TrimStart(s);
      |r| <= |s| && r == s[|s| - |r|..] && (r == [] || !IsWhitespace(r[0]))
      && AllWhitespace(s[..|s| - |r|])
  {
    if s != [] && IsWhitespace(s[0]) {
      TrimStartShape(s[1..]);
      var r := TrimStart(s);
      assert s[..|s| - |r|] == [s[0]] + s[1..][..|s| - 1 - |r|];
    }
  }

  /** TrimEnd keeps the longest prefix that does not end with white space. */
  lemma {:induction false} TrimEndShape(s: string)
    ensures var r := TrimEnd(s);
      |r| <= |s| && r == s[..|r|] && (r == [] || !IsWhitespace(r[|r| - 1]))
      && AllWhitespace(s[|r|..])
  {
    if s != [] && IsWhitespace(s[|s| - 1]) {
      var t := s[..|s| - 1];
      TrimEndShape(t);
      var r := TrimEnd(s);
      assert s[|r|..] == t[|r|..] + [s[|s| - 1]];
    }
  }

  /** `s.trim()`: no longer than `s`, and neither starting nor ending with white space. */
  function Trim(s: string): (r: string)
    ensures |r| <= |s|
    ensures r == [] || (!IsWhitespace(r[0]) && !IsWhitespace(r[|r| - 1]))
  {
    var t := TrimStart(s);
    TrimStartShape(s);
    TrimEndShape(t);
    var r := TrimEnd(t);
    assert r != [] ==> r[0] == t[0];
    r
  }

  /** What `trim` keeps is an infix of `s`, and what it cuts is white space. */
  lemma TrimIsInfix(s: string) returns (a: nat, b: nat)
    ensures a <= b <= |s| && Trim(s) == s[a..b]
    ensures AllWhitespace(s[..a]) && AllWhitespace(s[b..])
  {
    TrimStartShape(s);
    var t := TrimStart(s);
    TrimEndShape(t);
    var r := TrimEnd(t);
    a, b := |s| - |t|, |s| - |t| + |r|;
    assert r == t[..|r|];
    assert s[b..] == t[|r|..];
  }

  /** A text with no white space at either end is left as it is. */
  lemma TrimUntouched(s: string)
    requires s == [] || (!IsWhitespace(s[0]) && !IsWhitespace(s[|s| - 1]))
    ensures Trim(s) == s
  {
  }

  lemma {:induction false} BlankTrimStart(s: string)
    requires AllWhitespace(s)
    ensures TrimStart(s) == []
  {
    if s != [] {
      BlankTrimStart(s[1..]);
    }
  }

  /** `s.trim() === ''` holds exactly for the texts made only of white space. */
  lemma TrimEmptyIffBlank(s: string)
    ensures Trim(s) == [] <==> AllWhitespace(s)
  {
    var t := TrimStart(s);
    TrimStartShape(s);
    TrimEndShape(t);
    if Trim(s) == [] {
      assert t[0..] == t;
      assert t == [];
      assert s[..|s|] == s;
    }
    if AllWhitespace(s) {
      BlankTrimStart(s);
    }
  }

  /** Trimming is idempotent. */
  lemma TrimIdempotent(s: string)
    ensures Trim(Trim(s)) == Trim(s)
  {
    TrimUntouched(Trim(s));
  }

  /** A leading byte order mark is white space to `trim`. */
  lemma TrimDropsLeadingBom(s: string)
    ensures Trim([Bom] + s) == Trim(s)
  {
    assert ([Bom] + s)[1..] == s;
  }

  /** `text.charCodeAt(0) === 0xFEFF ? text.substring(1) : text`. */
  function StripBom(s: string): (r: string)
    ensures |s| > 0 && s[0] == Bom ==> r == s[1..]
    ensures !(|s| > 0 && s[0] == Bom) ==> r == s
  {
    if |s| > 0 && s[0] == Bom then s[1..] else s
  }

  /** Exactly one mark is removed, whatever follows it. */
  lemma StripBomOnce(s: string)
    ensures StripBom([Bom] + s) == s
  {
    assert ([Bom] + s)[1..] == s;
  }

  /** `s.split(sep)` for a one-character separator: never empty, pieces free of `sep`. */
  function SplitOn(s: string, sep: char): (r: seq<string>)
    ensures |r| >= 1
    ensures forall k :: 0 <= k < |r| ==> sep !in r[k]
  {
    if s == [] then [[]]
    else
      var rest := SplitOn(s[1..], sep);
      if s[0] == sep then [[]] + rest
      else [[s[0]] + rest[0]] + rest[1..]
  }

  /** Joining the pieces back with the separator gives the text again. */
  lemma {:induction false} JoinSplit(s: string, sep: char)
    ensures Join(SplitOn(s, sep), sep) == s
  {
    if s != [] {
      JoinSplit(s[1..], sep);
      var rest := SplitOn(s[1..], sep);
      if s[0] == sep {
        JoinCons([], rest, sep);
      } else {
        JoinHeadCons(s[0], rest, sep);
      }
      assert [s[0]] + s[1..] == s;
    }
  }

  /** `pieces.join(sep)`. */
  function Join(pieces: seq<string>, sep: char): string
  {
    if pieces == [] then []
    else if |pieces| == 1 then pieces[0]
    else pieces[0] + [sep] + Join(pieces[1..], sep)
  }

  /** A character that is neither the separator nor in any piece is not in the join. */
  lemma {:induction false} JoinAvoids(pieces: seq<string>, sep: char, c: char)
    requires c != sep
    requires forall k :: 0 <= k < |pieces| ==> c !in pieces[k]
    ensures c !in Join(pieces, sep)
  {
    if |pieces| > 1 {
      JoinAvoids(pieces[1..], sep, c);
    }
  }

  lemma JoinCons(p: string, rest: seq<string>, sep: char)
    requires rest != []
    ensures Join([p] + rest, sep) == p + [sep] + Join(rest, sep)
  {
    assert ([p] + rest)[1..] == rest;
  }

  lemma JoinHeadCons(c: char, rest: seq<string>, sep: char)
    requires rest != []
    ensures Join([[c] + rest[0]] + rest[1..], sep) == [c] + Join(rest, sep)
  {
    var ps := [[c] + rest[0]] + rest[1..];
    if |rest| > 1 {
      assert ps[1..] == rest[1..];
    }
  }

  /** Splitting undoes joining when no piece holds the separator. */
  lemma {:induction false} SplitJoin(pieces: seq<string>, sep: char)
    requires pieces != []
    requires forall k :: 0 <= k < |pieces| ==> sep !in pieces[k]
    ensures SplitOn(Join(pieces, sep), sep) == pieces
  {
    if |pieces| == 1 {
      SplitNoSep(pieces[0], sep);
    } else {
      SplitJoin(pieces[1..], sep);
      SplitPrefix(pieces[0], Join(pieces[1..], sep), sep);
      assert [pieces[0]] + pieces[1..] == pieces;
    }
  }

  lemma {:induction false} SplitNoSep(s: string, sep: char)
    requires sep !in s
    ensures SplitOn(s, sep) == [s]
  {
    if s != [] {
      assert sep !in s[1..] by {
        forall c | c in s[1..] ensures c != sep { assert c in s; }
      }
      SplitNoSep(s[1..], sep);
      assert [s[0]] + s[1..] == s;
    }
  }

  lemma {:induction false} SplitPrefix(p: string, t: string, sep: char)
    requires sep !in p
    ensures SplitOn(p + [sep] + t, sep) == [p] + SplitOn(t, sep)
  {
    if p == [] {
      assert ([] + [sep] + t)[1..] == t;
    } else {
      assert (p + [sep] + t)[1..] == p[1..] + [sep] + t;
      SplitPrefix(p[1..], t, sep);
      assert [p[0]] + p[1..] == p;
    }
  }

  /**
   * `s.split(/\r?\n/)`: the regular expression is tried at each position
   * from the left, so "\r\n" is one separator and a lone "\r" stays in its line.
   */
  function SplitLines(s: string): (r: seq<string>)
    ensures |r| >= 1
    ensures forall k :: 0 <= k < |r| ==> '\n' !in r[k]
  {
    if s == [] then [[]]
    else if s[0] == '\n' then [[]] + SplitLines(s[1..])
    else if |s| >= 2 && s[0] == '\r' && s[1] == '\n' then [[]] + SplitLines(s[2..])
    else
      var rest := SplitLines(s[1..]);
      [[s[0]] + rest[0]] + rest[1..]
  }

  /** One trailing carriage return removed, if there is one. */
  function DropCr(s: string): (r: string)
    ensures s != [] && s[|s| - 1] == '\r' ==> r == s[..|s| - 1]
    ensures !(s != [] && s[|s| - 1] == '\r') ==> r == s
  {
    if s != [] && s[|s| - 1] == '\r' then s[..|s| - 1] else s
  }

  /** Every piece but the last loses one trailing carriage return. */
  function DropCrButLast(pieces: seq<string>): (r: seq<string>)
    ensures |r| == |pieces|
  {
    if |pieces| <= 1 then pieces else [DropCr(pieces[0])] + DropCrButLast(pieces[1..])
  }

  /**
   * The regular-expression split agrees with splitting on line feeds and
   * then dropping the carriage return that ended each line.
   */
  lemma {:induction false} SplitLinesViaLineFeeds(s: string)
    ensures SplitLines(s) == DropCrButLast(SplitOn(s, '\n'))
  {
    if s == [] {
    } else if s[0] == '\n' {
      SplitLinesViaLineFeeds(s[1..]);
      DropCrButLastCons([], SplitOn(s[1..], '\n'));
    } else if |s| >= 2 && s[0] == '\r' && s[1] == '\n' {
      SplitLinesViaLineFeeds(s[2..]);
      var p := SplitOn(s[2..], '\n');
      assert s[1..][1..] == s[2..];
      var q := SplitOn(s[1..], '\n');
      assert q == [[]] + p;
      assert q[0] == [] && q[1..] == p;
      assert SplitOn(s, '\n') == [['\r'] + q[0]] + q[1..];
      DropCrButLastCons(['\r'], p);
    } else {
      SplitLinesViaLineFeeds(s[1..]);
      CarryFirstChar(s);
    }
  }

  /** The last case of the induction above: `s[0]` joins the first line. */
  lemma CarryFirstChar(s: string)
    requires s != [] && s[0] != '\n' && !(|s| >= 2 && s[0] == '\r' && s[1] == '\n')
    requires SplitLines(s[1..]) == DropCrButLast(SplitOn(s[1..], '\n'))
    ensures SplitLines(s) == DropCrButLast(SplitOn(s, '\n'))
  {
    var p := SplitOn(s[1..], '\n');
    var rest := SplitLines(s[1..]);
    var c := s[0];
    assert SplitLines(s) == [[c] + rest[0]] + rest[1..];
    assert SplitOn(s, '\n') == [[c] + p[0]] + p[1..];
    if |p| > 1 {
      if p[0] == [] {
        SplitOnHeadEmpty(s[1..], '\n');
      }
      DropCrCons(c, p[0]);
      DropCrButLastCons([c] + p[0], p[1..]);
      DropCrButLastCons(p[0], p[1..]);
      assert [p[0]] + p[1..] == p;
      assert rest[0] == DropCr(p[0]) && rest[1..] == DropCrButLast(p[1..]);
    }
  }

  lemma DropCrCons(c: char, x: string)
    requires x != [] || c != '\r'
    ensures DropCr([c] + x) == [c] + DropCr(x)
  {
    if x != [] {
      assert ([c] + x)[..|x|] == [c] + x[..|x| - 1];
    }
  }

  lemma SplitOnHeadEmpty(t: string, sep: char)
    requires |SplitOn(t, sep)| > 1 && SplitOn(t, sep)[0] == []
    ensures t != [] && t[0] == sep
  {
  }

  lemma DropCrButLastCons(x: string, p: seq<string>)
    requires p != []
    ensures DropCrButLast([x] + p) == [DropCr(x)] + DropCrButLast(p)
  {
    assert ([x] + p)[1..] == p;
  }

  /** The lines of a feed: mark stripped, then split on CRLF or LF. */
  function Lines(text: string): (r: seq<string>)
    ensures |r| >= 1
  {
    SplitLines(StripBom(text))
  }

  lemma {:induction false} SplitLinesNoLineFeed(s: string)
    requires '\n' !in s
    ensures SplitLines(s) == [s]
  {
    if s != [] {
      assert '\n' !in s[1..] by {
        forall c | c in s[1..] ensures c != '\n' { assert c in s; }
      }
      SplitLinesNoLineFeed(s[1..]);
      assert [s[0]] + s[1..] == s;
    }
  }

  /** A first line without a final carriage return splits off cleanly. */
  lemma {:induction false} SplitLinesPrefix(h: string, t: string)
    requires '\n' !in h
    requires h == [] || h[|h| - 1] != '\r'
    ensures SplitLines(h + "\n" + t) == [h] + SplitLines(t)
  {
    if h == [] {
      assert ([] + "\n" + t)[1..] == t;
    } else {
      var s := h + "\n" + t;
      assert s[1..] == h[1..] + "\n" + t;
      if |h| == 1 {
        assert s[1] == '\n';
      }
      SplitLinesPrefix(h[1..], t);
      assert [h[0]] + h[1..] == h;
    }
  }

  /** The first line, whatever it holds, splits off with its carriage return dropped. */
  lemma SplitLinesFirstLine(h: string, t: string)
    requires '\n' !in h
    ensures SplitLines(h + "\n" + t) == [DropCr(h)] + SplitLines(t)
  {
    SplitLinesViaLineFeeds(h + "\n" + t);
    SplitLinesViaLineFeeds(t);
    SplitPrefix(h, t, '\n');
    DropCrButLastCons(h, SplitOn(t, '\n'));
  }

  /** A character other than a line break joins the first line and nothing else. */
  lemma SplitLinesCarry(c: char, s: string)
    requires c != '\n' && c != '\r'
    ensures SplitLines([c] + s)[0] == [c] + SplitLines(s)[0]
    ensures SplitLines([c] + s)[1..] == SplitLines(s)[1..]
  {
    assert ([c] + s)[1..] == s;
  }

  /** A text with or without one leading mark has the same lines. */
  lemma LinesIgnoreBom(s: string)
    ensures Lines([Bom] + s) == SplitLines(s)
  {
    StripBomOnce(s);
  }

  predicate IsDigits(s: string)
  {
    forall i :: 0 <= i < |s| ==> '0' <= s[i] <= '9'
  }

  function Digit(d: nat): (c: char)
    requires d < 10
    ensures '0' <= c <= '9' && c as int - '0' as int == d
  {
    ('0' as int + d) as char
  }

  /** A template literal's `${n}` for a non-negative integer: its decimal digits. */
  function Decimal(n: nat): (s: string)
    ensures |s| >= 1 && IsDigits(s)
  {
    if n < 10 then [Digit(n)] else Decimal(n / 10) + [Digit(n % 10)]
  }

  /** The number a string of decimal digits denotes. */
  function DecimalValue(s: string): nat
    requires IsDigits(s)
  {
    if s == [] then 0 else DecimalValue(s[..|s| - 1]) * 10 + (s[|s| - 1] as int - '0' as int)
  }

  /** The digits denote the number, and only zero is written with a leading `0`. */
  lemma {:induction false} DecimalRoundTrip(n: nat)
    ensures DecimalValue(Decimal(n)) == n
    ensures Decimal(n)[0] == '0' ==> n == 0
  {
    if n >= 10 {
      DecimalRoundTrip(n / 10);
      var s := Decimal(n);
      assert s[..|s| - 1] == Decimal(n / 10);
    }
  }
}
