/** The cleanup applied to every extracted value: characters outside the
    allowed class become spaces, whitespace runs become one space, and the
    ends are stripped. */
module Cleanup {
  import opened Seqs
  import opened Text

  /** The Romanian letters named in the allowed class: Ă Â Î Ș Ț ă â î ș ț. */
  const RomanianLetters: set<char> :=
    {'\U{0102}', '\U{00C2}', '\U{00CE}', '\U{0218}', '\U{021A}',
     '\U{0103}', '\U{00E2}', '\U{00EE}', '\U{0219}', '\U{021B}'}

  /** Membership in the class `[\w\s.\-/,ĂÂÎȘȚăâîșț]`. */
  predicate Allowed(cc: CharClasses, c: char) {
    cc.isWord(c) || cc.isSpace(c) || c in {'.', '-', '/', ','} || c in RomanianLetters
  }

  predicate AllAllowed(cc: CharClasses, s: string) {
    forall i | 0 <= i < |s| :: Allowed(cc, s[i])
  }

  /** The first substitution: every character outside the allowed class
      becomes one space, so the length is kept. */
  function Mask(cc: CharClasses, s: string): (r: string)
    ensures |r| == |s|
    ensures forall i | 0 <= i < |s| :: Allowed(cc, s[i]) ==> r[i] == s[i]
    ensures forall i | 0 <= i < |s| :: !Allowed(cc, s[i]) ==> r[i] == ' '
    ensures cc.isSpace(' ') ==> AllAllowed(cc, r)
  {
    seq(|s|, i requires 0 <= i < |s| => if Allowed(cc, s[i]) then s[i] else ' ')
  }

  /** `_clean_extracted_text`. */
  function Clean(cc: CharClasses, s: string): string {
    Strip(cc, Collapse(cc, Mask(cc, s)))
  }

  /** The cleaned text is the masked text's words joined by single spaces. */
  lemma CleanIsJoinedTokens(cc: CharClasses, s: string)
    requires cc.isSpace(' ')
    ensures Clean(cc, s) == JoinTokens(Tokens(cc, Mask(cc, s)))
  {
    StripCollapse(cc, Mask(cc, s));
  }

  /** Collapsing whitespace introduces no character outside the class. */
  lemma {:induction false} CollapseAllowed(cc: CharClasses, s: string)
    requires cc.isSpace(' ') && AllAllowed(cc, s)
    ensures AllAllowed(cc, Collapse(cc, s))
    decreases |s|
  {
    if s != [] {
      var rest := if cc.isSpace(s[0]) then TrimStart(cc, s) else s[1..];
      assert AllAllowed(cc, rest) by {
        forall i | 0 <= i < |rest| ensures Allowed(cc, rest[i]) {
          assert rest[i] == s[|s| - |rest| + i];
        }
      }
      CollapseAllowed(cc, rest);
      var head: string := if cc.isSpace(s[0]) then [' '] else [s[0]];
      var r := Collapse(cc, s);
      assert r == head + Collapse(cc, rest);
      forall i | 0 <= i < |r| ensures Allowed(cc, r[i]) {
        if i > 0 {
          assert r[i] == Collapse(cc, rest)[i - 1];
        }
      }
    }
  }

  lemma AllowedSlice(cc: CharClasses, s: string, lo: nat, hi: nat)
    requires AllAllowed(cc, s) && lo <= hi <= |s|
    ensures AllAllowed(cc, s[lo..hi])
  {
    forall i | 0 <= i < hi - lo ensures Allowed(cc, s[lo..hi][i]) {
      assert s[lo..hi][i] == s[lo + i];
    }
  }

  /** The cleaned text holds allowed characters only. */
  lemma CleanAllowed(cc: CharClasses, s: string)
    requires cc.isSpace(' ')
    ensures AllAllowed(cc, Clean(cc, s))
  {
    var c := Collapse(cc, Mask(cc, s));
    CollapseAllowed(cc, Mask(cc, s));
    var t := TrimStart(cc, c);
    AllowedSlice(cc, c, |c| - |t|, |c|);
    assert c[|c| - |t|..|c|] == t;
    AllowedSlice(cc, t, 0, |Strip(cc, c)|);
  }

  /** The cleaned text has no whitespace at its ends, and all of its
      whitespace is single ' ' characters between words. */
  lemma CleanNormal(cc: CharClasses, s: string)
    requires cc.isSpace(' ')
    ensures Normal(cc, Clean(cc, s))
  {
    CleanIsJoinedTokens(cc, s);
    TokensAreTokens(cc, Mask(cc, s));
    JoinTokensNormal(cc, Tokens(cc, Mask(cc, s)));
  }

  /** Masking leaves a string of allowed characters unchanged. */
  lemma MaskAllowed(cc: CharClasses, s: string)
    requires AllAllowed(cc, s)
    ensures Mask(cc, s) == s
  {
  }

  /** Cleaning twice is cleaning once. */
  lemma CleanIdempotent(cc: CharClasses, s: string)
    requires cc.isSpace(' ')
    ensures Clean(cc, Clean(cc, s)) == Clean(cc, s)
  {
    var ws := Tokens(cc, Mask(cc, s));
    var c := Clean(cc, s);
    assert c == JoinTokens(ws) by {
      CleanIsJoinedTokens(cc, s);
    }
    assert Mask(cc, c) == c by {
      CleanAllowed(cc, s);
      MaskAllowed(cc, c);
    }
    assert Tokens(cc, c) == ws by {
      TokensAreTokens(cc, Mask(cc, s));
      TokensOfJoin(cc, ws);
    }
    CleanIsJoinedTokens(cc, c);
  }

  /** A character outside the class separates its neighbours exactly as a
      space would: it is replaced, not deleted. */
  lemma CleanSeparates(cc: CharClasses, x: string, d: char, y: string)
    requires cc.isSpace(' ') && !Allowed(cc, d)
    ensures Clean(cc, x + [d] + y) == Clean(cc, x + [' '] + y)
  {
    var a := x + [d] + y;
    var b := x + [' '] + y;
    assert Mask(cc, a) == Mask(cc, b) by {
      forall i | 0 <= i < |a| ensures Mask(cc, a)[i] == Mask(cc, b)[i] {
        if i != |x| {
          assert a[i] == b[i];
        }
      }
    }
  }

  /** A single word of allowed characters is left as it is. */
  lemma CleanToken(cc: CharClasses, w: string)
    requires cc.isSpace(' ') && IsToken(cc, w) && AllAllowed(cc, w)
    ensures Clean(cc, w) == w
  {
    MaskAllowed(cc, w);
    CleanIsJoinedTokens(cc, w);
    TokensToken(cc, w, []);
    AppendEmpty(w, []);
    AppendEmpty([w], Tokens(cc, []));
  }

  /** The masked text is blank exactly when every character of the input
      is whitespace or outside the class. */
  lemma MaskBlank(cc: CharClasses, s: string)
    requires cc.isSpace(' ')
    ensures IsBlank(cc, Mask(cc, s)) <==> forall i | 0 <= i < |s| :: cc.isSpace(s[i]) || !Allowed(cc, s[i])
  {
    var m := Mask(cc, s);
    if IsBlank(cc, m) {
      forall i | 0 <= i < |s| ensures cc.isSpace(s[i]) || !Allowed(cc, s[i]) {
        assert cc.isSpace(m[i]);
      }
    }
  }

  /** The cleaned text is empty exactly when every character of the input
      is whitespace or outside the class. */
  lemma CleanEmptyIff(cc: CharClasses, s: string)
    requires cc.isSpace(' ')
    ensures Clean(cc, s) == [] <==>
            forall i | 0 <= i < |s| :: cc.isSpace(s[i]) || !Allowed(cc, s[i])
  {
    var m := Mask(cc, s);
    CleanIsJoinedTokens(cc, s);
    TokensAreTokens(cc, m);
    JoinTokensEnds(cc, Tokens(cc, m));
    TokensEmptyIffBlank(cc, m);
    MaskBlank(cc, s);
  }
}
