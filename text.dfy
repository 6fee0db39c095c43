/** Python's text primitives that the extractor relies on: the Unicode
    character classes, str.strip(), re.sub(r"\s+", " ", s) and str.split(). */
module Text {
  import opened Seqs

  /** Python's Unicode tables, left abstract: the class behind `\w`, the
      class behind `\s` (the same one `str.isspace` and `str.strip` use), the
      class behind `\d`, and `str.upper` / `str.lower` of a single character
      (a character may map to several, as 'ß'.upper() == "SS" does). */
  datatype CharClasses = CharClasses(
    isWord: char -> bool,
    isSpace: char -> bool,
    isDigit: char -> bool,
    upper: char -> string,
    lower: char -> string)
  {
    /** The facts about Python's tables that the model relies on: ASCII
        whitespace is whitespace, and ASCII letters, digits and '.' behave
        as Python says. */
    predicate Valid() {
      && isSpace(' ') && isSpace('\n') && isSpace('\t') && isSpace('\r')
      && !isSpace('.') && upper('.') == ['.'] && lower('.') == ['.']
      && (forall c :: IsAsciiDigit(c) ==>
            isDigit(c) && isWord(c) && !isSpace(c) && upper(c) == [c] && lower(c) == [c])
      && (forall c :: IsAsciiUpper(c) ==>
            isWord(c) && !isDigit(c) && !isSpace(c) && upper(c) == [c] && lower(c) == [ShiftCase(c, 32)])
      && (forall c :: IsAsciiLower(c) ==>
            isWord(c) && !isDigit(c) && !isSpace(c) && lower(c) == [c] && upper(c) == [ShiftCase(c, -32)])
      && (forall c :: IsAsciiPunctuation(c) ==>
            !isWord(c) && !isDigit(c) && !isSpace(c) && upper(c) == [c] && lower(c) == [c])
    }
  }

  predicate IsAsciiDigit(c: char) { '0' <= c <= '9' }
  predicate IsAsciiUpper(c: char) { 'A' <= c <= 'Z' }
  predicate IsAsciiLower(c: char) { 'a' <= c <= 'z' }
  /** ASCII punctuation other than '_', which `\w` includes. */
  predicate IsAsciiPunctuation(c: char) {
    ('!' <= c <= '/') || (':' <= c <= '@') || ('[' <= c <= '`' && c != '_') || ('{' <= c <= '~')
  }

  /** The ASCII letter `d` code points away from `c`. */
  function ShiftCase(c: char, d: int): char
    requires IsAsciiUpper(c) || IsAsciiLower(c)
    requires IsAsciiUpper(c) ==> d == 32
    requires IsAsciiLower(c) ==> d == -32
  {
    (c as int + d) as char
  }

  /** `str.upper()`: each character is replaced by its upper-case string. */
  function Upper(cc: CharClasses, s: string): string
    decreases |s|
  {
    if s == [] then [] else Upper(cc, s[..|s| - 1]) + cc.upper(s[|s| - 1])
  }

  /** `str.lower()`, one character at a time like Upper. */
  function Lower(cc: CharClasses, s: string): string
    decreases |s|
  {
    if s == [] then [] else Lower(cc, s[..|s| - 1]) + cc.lower(s[|s| - 1])
  }

  /** `not s.strip()`: the string holds whitespace only. */
  predicate IsBlank(cc: CharClasses, s: string) {
    forall i | 0 <= i < |s| :: cc.isSpace(s[i])
  }

  /** `s.lstrip()`: the longest suffix of `s` that does not start with whitespace. */
  function TrimStart(cc: CharClasses, s: string): (r: string)
    ensures |r| <= |s| && r == s[|s| - |r|..]
    ensures r == [] || !cc.isSpace(r[0])
    ensures IsBlank(cc, s[..|s| - |r|])
    decreases |s|
  {
    if s == [] || !cc.isSpace(s[0]) then s
    else
      var r := TrimStart(cc, s[1..]);
      assert s[..|s| - |r|] == [s[0]] + s[1..][..|s| - 1 - |r|];
      r
  }

  /** `s.rstrip()`: the longest prefix of `s` that does not end with whitespace. */
  function TrimEnd(cc: CharClasses, s: string): (r: string)
    ensures |r| <= |s| && r == s[..|r|]
    ensures r == [] || !cc.isSpace(r[|r| - 1])
    ensures IsBlank(cc, s[|r|..])
    decreases |s|
  {
    if s == [] || !cc.isSpace(s[|s| - 1]) then s
    else
      var r := TrimEnd(cc, s[..|s| - 1]);
      assert s[|r|..] == s[..|s| - 1][|r|..] + [s[|s| - 1]];
      r
  }

  /** `s.strip()`: `s` without its leading and trailing whitespace. */
  function Strip(cc: CharClasses, s: string): (r: string)
    ensures r == [] || (!cc.isSpace(r[0]) && !cc.isSpace(r[|r| - 1]))
    ensures r == [] <==> IsBlank(cc, s)
    ensures |r| <= |TrimStart(cc, s)| && r == TrimStart(cc, s)[..|r|]
  {
    StripEnds(cc, s, TrimStart(cc, s), TrimEnd(cc, TrimStart(cc, s)));
    TrimEnd(cc, TrimStart(cc, s))
  }

  lemma StripEnds(cc: CharClasses, s: string, t: string, r: string)
    requires |t| <= |s| && t == s[|s| - |t|..]
    requires (t == [] || !cc.isSpace(t[0])) && IsBlank(cc, s[..|s| - |t|])
    requires |r| <= |t| && r == t[..|r|]
    requires (r == [] || !cc.isSpace(r[|r| - 1])) && IsBlank(cc, t[|r|..])
    ensures r == [] || (!cc.isSpace(r[0]) && !cc.isSpace(r[|r| - 1]))
    ensures r == [] <==> IsBlank(cc, s)
  {
    var p := s[..|s| - |t|];
    assert IsBlank(cc, p);
    assert s == p + t by {
      SplitAppend(s, |s| - |t|, []);
    }
    BlankConcat(cc, p, t);
    if r == [] {
      assert t[|r|..] == t;
      assert IsBlank(cc, t);
    } else {
      assert r[0] == t[0];
      assert !IsBlank(cc, t) by {
        assert !cc.isSpace(t[0]);
      }
    }
  }

  /** A concatenation is blank exactly when both parts are. */
  lemma BlankConcat(cc: CharClasses, a: string, b: string)
    ensures IsBlank(cc, a + b) <==> IsBlank(cc, a) && IsBlank(cc, b)
  {
    if IsBlank(cc, a + b) {
      forall i | 0 <= i < |a| ensures cc.isSpace(a[i]) {
        assert a[i] == (a + b)[i];
      }
      forall i | 0 <= i < |b| ensures cc.isSpace(b[i]) {
        assert b[i] == (a + b)[|a| + i];
      }
    }
    if IsBlank(cc, a) && IsBlank(cc, b) {
      forall i | 0 <= i < |a + b| ensures cc.isSpace((a + b)[i]) {
        if i >= |a| {
          assert (a + b)[i] == b[i - |a|];
        }
      }
    }
  }

  /** `re.sub(r"\s+", " ", s)`: every maximal run of whitespace becomes one
      ' '. CollapseShape below says what that leaves. */
  function Collapse(cc: CharClasses, s: string): string
    decreases |s|
  {
    if s == [] then []
    else if cc.isSpace(s[0]) then [' '] + Collapse(cc, TrimStart(cc, s))
    else [s[0]] + Collapse(cc, s[1..])
  }

  /** A token of `str.split()`: non-empty, without whitespace. */
  predicate IsToken(cc: CharClasses, w: string) {
    w != [] && forall i | 0 <= i < |w| :: !cc.isSpace(w[i])
  }

  /** The longest prefix of `s` without whitespace. */
  function TakeToken(cc: CharClasses, s: string): (w: string)
    ensures |w| <= |s| && w == s[..|w|]
    ensures forall i | 0 <= i < |w| :: !cc.isSpace(w[i])
    ensures |w| == |s| || cc.isSpace(s[|w|])
    ensures s != [] && !cc.isSpace(s[0]) ==> |w| > 0
    decreases |s|
  {
    if s == [] || cc.isSpace(s[0]) then [] else [s[0]] + TakeToken(cc, s[1..])
  }

  /** `s.split()`: the maximal runs of non-whitespace characters, in order. */
  function Tokens(cc: CharClasses, s: string): seq<string>
    decreases |s|
  {
    var t := TrimStart(cc, s);
    if t == [] then []
    else
      var w := TakeToken(cc, t);
      [w] + Tokens(cc, t[|w|..])
  }

  /** Every element of `s.split()` is a token. */
  lemma {:induction false} TokensAreTokens(cc: CharClasses, s: string)
    ensures forall k | 0 <= k < |Tokens(cc, s)| :: IsToken(cc, Tokens(cc, s)[k])
    decreases |s|
  {
    var t := TrimStart(cc, s);
    if t != [] {
      var w := TakeToken(cc, t);
      TokensAreTokens(cc, t[|w|..]);
      assert IsToken(cc, w);
      forall k | 0 <= k < |Tokens(cc, s)| ensures IsToken(cc, Tokens(cc, s)[k]) {
        if k > 0 {
          assert Tokens(cc, s)[k] == Tokens(cc, t[|w|..])[k - 1];
        }
      }
    }
  }

  /** `s.split()` is empty exactly when `s` is blank. */
  lemma TokensEmptyIffBlank(cc: CharClasses, s: string)
    ensures |Tokens(cc, s)| == 0 <==> IsBlank(cc, s)
  {
    var t := TrimStart(cc, s);
    if t == [] {
      assert s[..|s|] == s;
    } else {
      assert t[0] == s[|s| - |t|];
    }
  }

  /** Tokens only looks at the text after its leading whitespace. */
  lemma TokensSameTrim(cc: CharClasses, a: string, b: string)
    requires TrimStart(cc, a) == TrimStart(cc, b)
    ensures Tokens(cc, a) == Tokens(cc, b)
  {
  }

  /** `" ".join(ws)`. */
  function JoinTokens(ws: seq<string>): (r: string)
    decreases |ws|
  {
    if ws == [] then []
    else if |ws| == 1 then ws[0]
    else ws[0] + [' '] + JoinTokens(ws[1..])
  }

  lemma JoinTokensCons(w: string, ws: seq<string>)
    requires |ws| > 0
    ensures JoinTokens([w] + ws) == w + [' '] + JoinTokens(ws)
  {
    assert ([w] + ws)[1..] == ws;
  }

  /** Joined tokens neither start nor end with whitespace, and are empty
      only when there are no tokens. */
  lemma {:induction false} JoinTokensEnds(cc: CharClasses, ws: seq<string>)
    requires forall k | 0 <= k < |ws| :: IsToken(cc, ws[k])
    ensures var r := JoinTokens(ws);
            (r == [] <==> ws == []) && (r != [] ==> !cc.isSpace(r[0]) && !cc.isSpace(r[|r| - 1]))
    decreases |ws|
  {
    if |ws| > 1 {
      JoinTokensEnds(cc, ws[1..]);
      var rest := JoinTokens(ws[1..]);
      assert JoinTokens(ws) == ws[0] + [' '] + rest;
      assert JoinTokens(ws)[0] == ws[0][0];
    }
  }

  /** A token in front of the text passes through Collapse unchanged. */
  lemma {:induction false} CollapseToken(cc: CharClasses, w: string, rest: string)
    requires forall i | 0 <= i < |w| :: !cc.isSpace(w[i])
    ensures Collapse(cc, w + rest) == w + Collapse(cc, rest)
    decreases |w|
  {
    if w != [] {
      var s := w + rest;
      assert s[0] == w[0] && s[1..] == w[1..] + rest;
      CollapseToken(cc, w[1..], rest);
      calc {
        Collapse(cc, s);
        [w[0]] + Collapse(cc, w[1..] + rest);
        [w[0]] + (w[1..] + Collapse(cc, rest));
        { assert w == [w[0]] + w[1..]; }
        w + Collapse(cc, rest);
      }
    } else {
      assert w + rest == rest;
    }
  }

  /** `body` with an optional space on either side. */
  function Padded(lead: bool, body: string, trail: bool): string {
    (if lead then [' '] else []) + body + (if trail then [' '] else [])
  }

  lemma PaddedSpace(body: string, trail: bool)
    ensures [' '] + Padded(false, body, trail) == Padded(true, body, trail)
  {
  }

  lemma PaddedToken(w: string, body: string, trail: bool)
    ensures w + Padded(true, body, trail) == Padded(false, w + [' '] + body, trail)
  {
  }

  /** The shape of Collapse's result: the tokens joined by single spaces,
      with one space in front when `s` starts with whitespace and one at the
      end when `s` ends with whitespace after at least one token. */
  lemma {:induction false} CollapseShape(cc: CharClasses, s: string)
    ensures Collapse(cc, s)
            == Padded(s != [] && cc.isSpace(s[0]),
                      JoinTokens(Tokens(cc, s)),
                      s != [] && cc.isSpace(s[|s| - 1]) && |Tokens(cc, s)| > 0)
    decreases |s|
  {
    if s == [] {
    } else if cc.isSpace(s[0]) {
      CollapseShapeSpace(cc, s);
    } else {
      CollapseShapeToken(cc, s);
    }
  }

  lemma {:induction false} CollapseShapeSpace(cc: CharClasses, s: string)
    requires s != [] && cc.isSpace(s[0])
    ensures Collapse(cc, s)
            == Padded(true, JoinTokens(Tokens(cc, s)), cc.isSpace(s[|s| - 1]) && |Tokens(cc, s)| > 0)
    decreases |s|, 0
  {
    var t := TrimStart(cc, s);
    var J := JoinTokens(Tokens(cc, s));
    var tr := cc.isSpace(s[|s| - 1]) && |Tokens(cc, s)| > 0;
    assert Collapse(cc, s) == [' '] + Collapse(cc, t);
    assert Tokens(cc, t) == Tokens(cc, s) by {
      assert TrimStart(cc, t) == t;
      TokensSameTrim(cc, s, t);
    }
    if t == [] {
      assert Collapse(cc, s) == [' '];
      assert |Tokens(cc, s)| == 0;
    } else {
      assert t[|t| - 1] == s[|s| - 1];
      assert Collapse(cc, t) == Padded(false, J, tr) by {
        CollapseShape(cc, t);
      }
      PaddedSpace(J, tr);
    }
  }

  lemma {:induction false} CollapseShapeToken(cc: CharClasses, s: string)
    requires s != [] && !cc.isSpace(s[0])
    ensures Collapse(cc, s)
            == Padded(false, JoinTokens(Tokens(cc, s)), cc.isSpace(s[|s| - 1]) && |Tokens(cc, s)| > 0)
    decreases |s|, 1
  {
    var w := TakeToken(cc, s);
    var r := s[|w|..];
    SplitAppend(s, |w|, []);
    if r == [] {
      CollapseToken(cc, w, r);
      TokensToken(cc, w, r);
      assert s[|s| - 1] == w[|w| - 1];
      LoneToken(w, Collapse(cc, r), Tokens(cc, r));
    } else {
      CollapseShapeTokenSpace(cc, w, r);
    }
  }

  /** CollapseShapeToken when whitespace follows the first token. */
  lemma {:induction false} CollapseShapeTokenSpace(cc: CharClasses, w: string, r: string)
    requires IsToken(cc, w) && r != [] && cc.isSpace(r[0])
    ensures var s := w + r;
            Collapse(cc, s)
            == Padded(false, JoinTokens(Tokens(cc, s)), cc.isSpace(s[|s| - 1]) && |Tokens(cc, s)| > 0)
    decreases |w + r|, 0
  {
    var ts := Tokens(cc, r);
    CollapseToken(cc, w, r);
    TokensToken(cc, w, r);
    CollapseShapeSpace(cc, r);
    assert (w + r)[|w + r| - 1] == r[|r| - 1];
    if |ts| == 0 {
      TokensEmptyIffBlank(cc, r);
      TokenThenBlank(w, ts);
    } else {
      TokenThenTokens(w, ts, cc.isSpace(r[|r| - 1]));
    }
  }

  lemma LoneToken(w: string, rest: string, ts: seq<string>)
    requires rest == [] && ts == []
    ensures w + rest == Padded(false, JoinTokens([w] + ts), false)
  {
    AppendEmpty([w], ts);
    AppendEmpty(w, rest);
  }

  lemma TokenThenBlank(w: string, ts: seq<string>)
    requires ts == []
    ensures w + Padded(true, JoinTokens(ts), false) == Padded(false, JoinTokens([w] + ts), true)
  {
    AppendEmpty([w], ts);
  }

  lemma TokenThenTokens(w: string, ts: seq<string>, trail: bool)
    requires ts != []
    ensures w + Padded(true, JoinTokens(ts), trail) == Padded(false, JoinTokens([w] + ts), trail)
  {
    JoinTokensCons(w, ts);
    PaddedToken(w, JoinTokens(ts), trail);
  }

  /** Leading whitespace is skipped by TrimStart. */
  lemma {:induction false} TrimStartBlankPrefix(cc: CharClasses, p: string, s: string)
    requires IsBlank(cc, p)
    ensures TrimStart(cc, p + s) == TrimStart(cc, s)
    decreases |p|
  {
    if p != [] {
      assert (p + s)[1..] == p[1..] + s;
      TrimStartBlankPrefix(cc, p[1..], s);
    } else {
      assert p + s == s;
    }
  }

  /** Trailing whitespace is skipped by TrimEnd. */
  lemma {:induction false} TrimEndBlankSuffix(cc: CharClasses, s: string, b: string)
    requires IsBlank(cc, b)
    ensures TrimEnd(cc, s + b) == TrimEnd(cc, s)
    decreases |b|
  {
    if b != [] {
      var x := s + b;
      assert x[..|x| - 1] == s + b[..|b| - 1];
      TrimEndBlankSuffix(cc, s, b[..|b| - 1]);
    } else {
      assert s + b == s;
    }
  }

  /** Stripping a string padded by single spaces gives the string back. */
  lemma StripPadded(cc: CharClasses, lead: bool, body: string, trail: bool)
    requires cc.isSpace(' ')
    requires body == [] ==> !trail
    requires body != [] ==> !cc.isSpace(body[0]) && !cc.isSpace(body[|body| - 1])
    ensures Strip(cc, Padded(lead, body, trail)) == body
  {
    var l: string := if lead then [' '] else [];
    var t: string := if trail then [' '] else [];
    var x := Padded(lead, body, trail);
    assert TrimStart(cc, x) == body + t by {
      assert x == l + (body + t);
      TrimStartBlankPrefix(cc, l, body + t);
      assert body + t == [] || (body + t)[0] == body[0];
    }
    assert TrimEnd(cc, body + t) == body by {
      TrimEndBlankSuffix(cc, body, t);
    }
  }

  /** `re.sub(r"\s+", " ", s).strip()` is `" ".join(s.split())`. */
  lemma StripCollapse(cc: CharClasses, s: string)
    requires cc.isSpace(' ')
    ensures Strip(cc, Collapse(cc, s)) == JoinTokens(Tokens(cc, s))
  {
    var lead := s != [] && cc.isSpace(s[0]);
    var J := JoinTokens(Tokens(cc, s));
    var trail := s != [] && cc.isSpace(s[|s| - 1]) && |Tokens(cc, s)| > 0;
    assert Collapse(cc, s) == Padded(lead, J, trail) by {
      CollapseShape(cc, s);
    }
    assert Strip(cc, Padded(lead, J, trail)) == J by {
      TokensAreTokens(cc, s);
      JoinTokensEnds(cc, Tokens(cc, s));
      StripPadded(cc, lead, J, trail);
    }
  }

  /** TakeToken stops at the first whitespace after a token. */
  lemma {:induction false} TakeTokenPrefix(cc: CharClasses, w: string, rest: string)
    requires forall i | 0 <= i < |w| :: !cc.isSpace(w[i])
    requires rest == [] || cc.isSpace(rest[0])
    ensures TakeToken(cc, w + rest) == w
    decreases |w|
  {
    if w != [] {
      assert (w + rest)[1..] == w[1..] + rest;
      TakeTokenPrefix(cc, w[1..], rest);
    } else {
      assert w + rest == rest;
    }
  }

  /** A token followed by whitespace (or nothing) is the first element of `split()`. */
  lemma TokensToken(cc: CharClasses, w: string, r: string)
    requires IsToken(cc, w)
    requires r == [] || cc.isSpace(r[0])
    ensures Tokens(cc, w + r) == [w] + Tokens(cc, r)
  {
    var s := w + r;
    assert s[0] == w[0];
    assert TrimStart(cc, s) == s;
    TakeTokenPrefix(cc, w, r);
    assert s[|w|..] == r;
  }

  /** A token, a space and more text: the token, then the tokens of the text. */
  lemma TokensSpaceThen(cc: CharClasses, w: string, rest: string)
    requires cc.isSpace(' ') && IsToken(cc, w)
    ensures Tokens(cc, w + [' '] + rest) == [w] + Tokens(cc, rest)
  {
    Associate(w, [' '], rest);
    TokensToken(cc, w, [' '] + rest);
    TokensAfterSpace(cc, rest);
  }

  /** A leading space adds no token. */
  lemma TokensAfterSpace(cc: CharClasses, rest: string)
    requires cc.isSpace(' ')
    ensures Tokens(cc, [' '] + rest) == Tokens(cc, rest)
  {
    assert IsBlank(cc, [' ']);
    TrimStartBlankPrefix(cc, [' '], rest);
    TokensSameTrim(cc, [' '] + rest, rest);
  }

  /** Round trip: splitting tokens joined by single spaces gives the tokens back. */
  lemma {:induction false} TokensOfJoin(cc: CharClasses, ws: seq<string>)
    requires cc.isSpace(' ')
    requires forall k | 0 <= k < |ws| :: IsToken(cc, ws[k])
    ensures Tokens(cc, JoinTokens(ws)) == ws
    decreases |ws|
  {
    if ws == [] {
    } else if |ws| == 1 {
      TokensToken(cc, ws[0], []);
      AppendEmpty(ws[0], []);
      SplitFirst(ws);
    } else {
      TokensOfJoin(cc, ws[1..]);
      TokensOfJoinStep(cc, ws);
    }
  }

  lemma TokensOfJoinStep(cc: CharClasses, ws: seq<string>)
    requires cc.isSpace(' ') && |ws| > 1 && IsToken(cc, ws[0])
    requires Tokens(cc, JoinTokens(ws[1..])) == ws[1..]
    ensures Tokens(cc, JoinTokens(ws)) == ws
  {
    TokensSpaceThen(cc, ws[0], JoinTokens(ws[1..]));
    SplitFirst(ws);
  }

  /** Trailing whitespace adds no tokens. */
  lemma {:induction false} TokensAppendBlank(cc: CharClasses, a: string, b: string)
    requires IsBlank(cc, b)
    ensures Tokens(cc, a + b) == Tokens(cc, a)
    decreases |a|
  {
    var t := TrimStart(cc, a);
    var n := |a| - |t|;
    SplitAppend(a, n, b);
    TrimStartBlankPrefix(cc, a[..n], t + b);
    TokensSameTrim(cc, a + b, t + b);
    TokensSameTrim(cc, a, t);
    if t == [] {
      TokensEmptyIffBlank(cc, b);
      assert t + b == b;
    } else {
      var w := TakeToken(cc, t);
      var r := t[|w|..];
      SplitAppend(t, |w|, b);
      TokensToken(cc, w, r);
      TokensToken(cc, w, r + b);
      TokensAppendBlank(cc, r, b);
    }
  }

  /** A token is its own strip. */
  lemma StripToken(cc: CharClasses, w: string)
    requires IsToken(cc, w)
    ensures Strip(cc, w) == w
  {
    assert TrimStart(cc, w) == w;
    assert TrimEnd(cc, w) == w;
  }

  /** Trailing whitespace removed by TrimEnd adds no tokens. */
  lemma TokensTrimEnd(cc: CharClasses, t: string)
    ensures Tokens(cc, TrimEnd(cc, t)) == Tokens(cc, t)
  {
    var r := TrimEnd(cc, t);
    SplitAppend(t, |r|, []);
    TokensAppendBlank(cc, r, t[|r|..]);
  }

  /** Stripping first does not change the tokens. */
  lemma TokensStrip(cc: CharClasses, s: string)
    ensures Tokens(cc, Strip(cc, s)) == Tokens(cc, s)
  {
    var t := TrimStart(cc, s);
    TokensTrimEnd(cc, t);
    assert TrimStart(cc, t) == t;
    TokensSameTrim(cc, s, t);
  }

  /** The normal form of `" ".join(s.split())`: no whitespace at either end,
      and every whitespace character is a single ' ' between two
      non-whitespace characters. */
  predicate Normal(cc: CharClasses, r: string) {
    && (r == [] || (!cc.isSpace(r[0]) && !cc.isSpace(r[|r| - 1])))
    && forall i | 0 <= i < |r| && cc.isSpace(r[i]) ::
         r[i] == ' ' && 0 < i < |r| - 1 && !cc.isSpace(r[i + 1])
  }

  /** Tokens joined by single spaces are in normal form. */
  lemma {:induction false} JoinTokensNormal(cc: CharClasses, ws: seq<string>)
    requires cc.isSpace(' ')
    requires forall k | 0 <= k < |ws| :: IsToken(cc, ws[k])
    ensures Normal(cc, JoinTokens(ws))
    decreases |ws|
  {
    JoinTokensEnds(cc, ws);
    if |ws| > 1 {
      var w := ws[0];
      var rest := JoinTokens(ws[1..]);
      var r := JoinTokens(ws);
      JoinTokensNormal(cc, ws[1..]);
      JoinTokensEnds(cc, ws[1..]);
      assert r == w + [' '] + rest;
      forall i | 0 <= i < |r| && cc.isSpace(r[i])
        ensures r[i] == ' ' && 0 < i < |r| - 1 && !cc.isSpace(r[i + 1])
      {
        if i == |w| {
          assert r[i + 1] == rest[0];
        } else if i > |w| {
          var j := i - |w| - 1;
          assert r[i] == rest[j];
          assert j < |rest| - 1 ==> r[i + 1] == rest[j + 1];
        }
      }
    }
  }
}
