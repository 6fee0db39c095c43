/** `safe_search`: the ordered search over a field's patterns, with the
    regular-expression engine left abstract. */
module Search {
  import opened Wrappers
  import opened Seqs
  import opened Text
  import opened Cleanup

  /** A successful `re.search`: the matched text and the capture groups in
      order, a group that did not take part being None. */
  datatype Match = Match(whole: string, groups: seq<Option<string>>)

  /** `re.search(pattern, text, IGNORECASE | MULTILINE | DOTALL)`: the first
      match of `pattern` in `text`, or None. Its semantics are not modelled. */
  type Engine = (string, string) -> Option<Match>

  /** The value a match offers before cleanup: group 1 stripped when the
      pattern has groups, else the whole match stripped, except that groups 1
      and 2 are concatenated unstripped when both are non-empty. None stands
      for the AttributeError raised when group 1 did not take part. */
  function Candidate(cc: CharClasses, m: Match): Option<string> {
    if |m.groups| == 0 then Some(Strip(cc, m.whole))
    else match m.groups[0]
      case None => None
      case Some(g1) =>
        if |m.groups| > 1 && g1 != [] && m.groups[1].Some? && m.groups[1].value != []
        then Some(g1 + m.groups[1].value)
        else Some(Strip(cc, g1))
  }

  /** What one pattern yields before cleanup: None when it does not match or
      its group 1 did not take part. */
  function Attempt(cc: CharClasses, engine: Engine, pattern: string, text: string): Option<string> {
    match engine(pattern, text)
    case None => None
    case Some(m) => Candidate(cc, m)
  }

  /** The pattern yields a non-empty value, so the search stops at it. */
  predicate Hit(cc: CharClasses, engine: Engine, pattern: string, text: string) {
    var v := Attempt(cc, engine, pattern, text);
    v.Some? && v.value != []
  }

  /** `safe_search(patterns, text)`. */
  function SafeSearch(cc: CharClasses, engine: Engine, patterns: seq<string>, text: string): (r: string)
    decreases |patterns|
  {
    if patterns == [] then []
    else if Hit(cc, engine, patterns[0], text) then Clean(cc, Attempt(cc, engine, patterns[0], text).value)
    else SafeSearch(cc, engine, patterns[1..], text)
  }

  /** First match wins: the result is the cleaned value of the first pattern
      that yields a non-empty value, whatever the later patterns yield. */
  lemma {:induction false} SafeSearchFirstHit(cc: CharClasses, engine: Engine, patterns: seq<string>, text: string, k: nat)
    requires k < |patterns| && Hit(cc, engine, patterns[k], text)
    requires forall j | 0 <= j < k :: !Hit(cc, engine, patterns[j], text)
    ensures SafeSearch(cc, engine, patterns, text) == Clean(cc, Attempt(cc, engine, patterns[k], text).value)
    decreases k
  {
    if k > 0 {
      assert !Hit(cc, engine, patterns[0], text);
      var rest := patterns[1..];
      assert rest[k - 1] == patterns[k];
      forall j | 0 <= j < k - 1 ensures !Hit(cc, engine, rest[j], text) {
        assert rest[j] == patterns[j + 1];
      }
      SafeSearchFirstHit(cc, engine, rest, text, k - 1);
    }
  }

  /** When no pattern yields a non-empty value the result is "". */
  lemma {:induction false} SafeSearchNoHit(cc: CharClasses, engine: Engine, patterns: seq<string>, text: string)
    requires forall j | 0 <= j < |patterns| :: !Hit(cc, engine, patterns[j], text)
    ensures SafeSearch(cc, engine, patterns, text) == []
    decreases |patterns|
  {
    if patterns != [] {
      assert !Hit(cc, engine, patterns[0], text);
      forall j | 0 <= j < |patterns| - 1 ensures !Hit(cc, engine, patterns[1..][j], text) {
        assert patterns[1..][j] == patterns[j + 1];
      }
      SafeSearchNoHit(cc, engine, patterns[1..], text);
    }
  }

  /** Later patterns are consulted only when no earlier one yields a value. */
  lemma {:induction false} SafeSearchAppend(cc: CharClasses, engine: Engine, first: seq<string>, later: seq<string>, text: string)
    ensures SafeSearch(cc, engine, first + later, text)
            == if exists j | 0 <= j < |first| :: Hit(cc, engine, first[j], text)
               then SafeSearch(cc, engine, first, text)
               else SafeSearch(cc, engine, later, text)
    decreases |first|
  {
    if first == [] {
      assert first + later == later;
    } else {
      var ps := first + later;
      assert ps[0] == first[0] && ps[1..] == first[1..] + later;
      SafeSearchAppend(cc, engine, first[1..], later, text);
      if !Hit(cc, engine, first[0], text) {
        assert (exists j | 0 <= j < |first| :: Hit(cc, engine, first[j], text))
           <==> (exists j | 0 <= j < |first| - 1 :: Hit(cc, engine, first[1..][j], text)) by {
          forall j | 0 <= j < |first| - 1 ensures first[1..][j] == first[j + 1] {
          }
        }
      }
    }
  }

  /** A non-empty result is already clean: it holds allowed characters only,
      it is in normal form, and cleaning it again changes nothing. */
  lemma {:induction false} SafeSearchClean(cc: CharClasses, engine: Engine, patterns: seq<string>, text: string)
    requires cc.isSpace(' ')
    ensures var r := SafeSearch(cc, engine, patterns, text);
            AllAllowed(cc, r) && Normal(cc, r) && Clean(cc, r) == r
    decreases |patterns|
  {
    if patterns != [] {
      if Hit(cc, engine, patterns[0], text) {
        var v := Attempt(cc, engine, patterns[0], text).value;
        CleanAllowed(cc, v);
        CleanNormal(cc, v);
        CleanIdempotent(cc, v);
      } else {
        SafeSearchClean(cc, engine, patterns[1..], text);
      }
    }
  }

  /** A pattern without groups offers its whole match, stripped. */
  lemma SafeSearchWhole(cc: CharClasses, engine: Engine, patterns: seq<string>, text: string, whole: string)
    requires patterns != [] && engine(patterns[0], text) == Some(Match(whole, []))
    ensures !IsBlank(cc, whole) ==> SafeSearch(cc, engine, patterns, text) == Clean(cc, Strip(cc, whole))
    ensures IsBlank(cc, whole) ==> SafeSearch(cc, engine, patterns, text) == SafeSearch(cc, engine, patterns[1..], text)
  {
  }

  /** When group 1 did not take part the match is skipped, even if the
      whole match is non-empty. */
  lemma SafeSearchSkipsMissingGroup(cc: CharClasses, engine: Engine, patterns: seq<string>, text: string, m: Match)
    requires patterns != [] && engine(patterns[0], text) == Some(m)
    requires |m.groups| > 0 && m.groups[0] == None
    ensures SafeSearch(cc, engine, patterns, text) == SafeSearch(cc, engine, patterns[1..], text)
  {
  }

  /** With a single group, the value is group 1 stripped; a blank group 1
      makes the search go on. */
  lemma SafeSearchGroupOne(cc: CharClasses, engine: Engine, patterns: seq<string>, text: string, whole: string, g1: string)
    requires patterns != [] && engine(patterns[0], text) == Some(Match(whole, [Some(g1)]))
    ensures !IsBlank(cc, g1) ==> SafeSearch(cc, engine, patterns, text) == Clean(cc, Strip(cc, g1))
    ensures IsBlank(cc, g1) ==> SafeSearch(cc, engine, patterns, text) == SafeSearch(cc, engine, patterns[1..], text)
  {
  }

  /** Groups 1 and 2 both non-empty: their unstripped concatenation is the
      value that is cleaned, even when group 1 is only whitespace. */
  lemma SafeSearchConcatenates(cc: CharClasses, engine: Engine, patterns: seq<string>, text: string,
                               whole: string, g1: string, g2: string, more: seq<Option<string>>)
    requires patterns != [] && engine(patterns[0], text) == Some(Match(whole, [Some(g1), Some(g2)] + more))
    requires g1 != [] && g2 != []
    ensures SafeSearch(cc, engine, patterns, text) == Clean(cc, g1 + g2)
  {
    var gs := [Some(g1), Some(g2)] + more;
    assert gs[0] == Some(g1) && gs[1] == Some(g2);
  }

  /** The search stops at the first pattern with a non-empty raw value even
      when cleanup turns that value into "": a later pattern that would have
      produced a value is never tried. */
  lemma SafeSearchStopsOnPunctuation(cc: CharClasses)
    requires cc.Valid()
    ensures var engine: Engine :=
              (p: string, t: string) => if p == "first" then Some(Match("@@", [])) else Some(Match("Ion", []));
            && SafeSearch(cc, engine, ["first", "second"], "@@ Ion") == []
            && SafeSearch(cc, engine, ["second"], "@@ Ion") == "Ion"
  {
    var engine: Engine :=
      (p: string, t: string) => if p == "first" then Some(Match("@@", [])) else Some(Match("Ion", []));
    var both := ["first", "second"];
    CleanPunctuation(cc);
    CleanName(cc);
    assert engine(both[0], "@@ Ion") == Some(Match("@@", []));
    SafeSearchWhole(cc, engine, both, "@@ Ion", "@@");
    assert engine("second", "@@ Ion") == Some(Match("Ion", []));
    SafeSearchWhole(cc, engine, ["second"], "@@ Ion", "Ion");
  }

  /** A run of '@', which is neither whitespace nor in the allowed class,
      survives stripping but is cleaned away entirely. */
  lemma AtSignsClean(cc: CharClasses, s: string)
    requires cc.Valid() && s != [] && forall i | 0 <= i < |s| :: s[i] == '@'
    ensures Strip(cc, s) == s && !IsBlank(cc, s) && Clean(cc, s) == []
  {
    assert IsAsciiPunctuation('@');
    assert !cc.isSpace('@') && !Allowed(cc, '@');
    assert IsToken(cc, s);
    StripToken(cc, s);
    CleanEmptyIff(cc, s);
  }

  /** A word of ASCII letters survives stripping and cleanup unchanged. */
  lemma LettersClean(cc: CharClasses, w: string)
    requires cc.Valid() && w != [] && forall i | 0 <= i < |w| :: IsAsciiUpper(w[i]) || IsAsciiLower(w[i])
    ensures Strip(cc, w) == w && !IsBlank(cc, w) && Clean(cc, w) == w
  {
    assert IsToken(cc, w) && AllAllowed(cc, w);
    StripToken(cc, w);
    CleanToken(cc, w);
  }

  lemma CleanPunctuation(cc: CharClasses)
    requires cc.Valid()
    ensures Strip(cc, "@@") == "@@" && !IsBlank(cc, "@@") && Clean(cc, "@@") == []
  {
    var at := "@@";
    assert forall i | 0 <= i < |at| :: at[i] == '@';
    AtSignsClean(cc, at);
  }

  lemma CleanName(cc: CharClasses)
    requires cc.Valid()
    ensures Strip(cc, "Ion") == "Ion" && !IsBlank(cc, "Ion") && Clean(cc, "Ion") == "Ion"
  {
    var ion := "Ion";
    assert IsAsciiUpper(ion[0]) && IsAsciiLower(ion[1]) && IsAsciiLower(ion[2]);
    LettersClean(cc, ion);
  }
}
