/** The parts of Windows path handling the program relies on: the suffix of
    a file name as `pathlib` computes it, the last component as `os.path.split`
    computes it, and `os.path.join` of a folder and a plain file name. */
module Paths {
  import opened Seqs
  /** Both separators Windows accepts. */
  predicate IsSep(c: char) {
    c == '/' || c == '\\'
  }

  predicate NoSep(s: string) {
    forall i | 0 <= i < |s| :: !IsSep(s[i])
  }

  /** The position of the last '.' in `s`, or -1 when there is none. */
  function LastDot(s: string): (i: int)
    ensures -1 <= i < |s|
    ensures i >= 0 ==> s[i] == '.'
    ensures forall j | i < j < |s| :: s[j] != '.'
    decreases |s|
  {
    if s == [] then -1
    else if s[|s| - 1] == '.' then |s| - 1
    else LastDot(s[..|s| - 1])
  }

  /** `PurePath(name).suffix` of a final component `name`: the text from its
      last dot, provided that dot is neither the first nor the last
      character; otherwise "". */
  function Suffix(name: string): (r: string)
    ensures r == [] || (|r| >= 2 && |r| < |name| && r[0] == '.' && r == name[|name| - |r|..])
    ensures r != [] ==> forall j | 0 < j < |r| :: r[j] != '.'
  {
    var i := LastDot(name);
    if 0 < i < |name| - 1 then name[i..] else []
  }

  /** A dot followed by at least one character and no further dot. */
  predicate IsExtension(ext: string) {
    |ext| >= 2 && ext[0] == '.' && forall j | 0 < j < |ext| :: ext[j] != '.'
  }

  /** A name made of a non-empty stem and an extension has that extension
      as its suffix. */
  lemma SuffixOf(stem: string, ext: string)
    requires stem != [] && IsExtension(ext)
    ensures Suffix(stem + ext) == ext
  {
    LastDotAfter(stem, ext);
  }

  lemma {:induction false} LastDotAfter(stem: string, ext: string)
    requires ext != [] && ext[0] == '.'
    requires forall j | 0 < j < |ext| :: ext[j] != '.'
    ensures LastDot(stem + ext) == |stem|
    decreases |ext|
  {
    DropLast(stem, ext);
    if |ext| > 1 {
      LastDotAfter(stem, ext[..|ext| - 1]);
    }
  }

  /** A name whose only dot is its first character, or which ends with a
      dot, has no suffix. */
  lemma SuffixEdgeCases(name: string)
    ensures |name| > 0 && name[|name| - 1] == '.' ==> Suffix(name) == []
    ensures (forall j | 0 < j < |name| :: name[j] != '.') ==> Suffix(name) == []
  {
  }

  /** The text after the last separator of `p`. */
  function Tail(p: string): (t: string)
    ensures |t| <= |p| && t == p[|p| - |t|..]
    ensures NoSep(t)
    ensures |t| < |p| ==> IsSep(p[|p| - |t| - 1])
    decreases |p|
  {
    if p == [] || IsSep(p[|p| - 1]) then []
    else
      var t := Tail(p[..|p| - 1]);
      TailStep(p, t);
      t + [p[|p| - 1]]
  }

  lemma TailStep(p: string, t: string)
    requires p != [] && !IsSep(p[|p| - 1])
    requires |t| <= |p| - 1 && t == p[..|p| - 1][|p| - 1 - |t|..] && NoSep(t)
    requires |t| < |p| - 1 ==> IsSep(p[..|p| - 1][|p| - 1 - |t| - 1])
    ensures var u := t + [p[|p| - 1]];
            |u| <= |p| && u == p[|p| - |u|..] && NoSep(u) && (|u| < |p| ==> IsSep(p[|p| - |u| - 1]))
  {
    DropSnoc(p, |p| - 1 - |t|);
    NoSepConcat(t, [p[|p| - 1]]);
  }

  /** The path has a drive such as `C:` in front. */
  predicate HasDrive(p: string) {
    |p| >= 2 && !IsSep(p[0]) && p[1] == ':'
  }

  /** `p` without its drive. */
  function AfterDrive(p: string): string {
    if HasDrive(p) then p[2..] else p
  }

  /** `os.path.split(p)[1]`: the last component, after the last separator
      that follows the drive. */
  function BaseName(p: string): (r: string)
    ensures NoSep(r)
  {
    Tail(AfterDrive(p))
  }

  /** `os.path.join(folder, name)` for a name with no drive and no separator:
      a backslash goes between them unless the folder, past its drive, is
      empty or already ends with a separator. */
  function Join(folder: string, name: string): string {
    var rest := AfterDrive(folder);
    if rest != [] && !IsSep(rest[|rest| - 1]) then folder + "\\" + name else folder + name
  }

  /** A concatenation has no separator exactly when neither part has. */
  lemma NoSepConcat(a: string, b: string)
    ensures NoSep(a + b) <==> NoSep(a) && NoSep(b)
  {
    if NoSep(a + b) {
      forall i | 0 <= i < |a| ensures !IsSep(a[i]) {
        assert a[i] == (a + b)[i];
      }
      forall i | 0 <= i < |b| ensures !IsSep(b[i]) {
        assert b[i] == (a + b)[|a| + i];
      }
    }
    if NoSep(a) && NoSep(b) {
      forall i | 0 <= i < |a + b| ensures !IsSep((a + b)[i]) {
        if i >= |a| {
          assert (a + b)[i] == b[i - |a|];
        }
      }
    }
  }

  lemma NoSepConcat3(a: string, b: string, c: string)
    requires NoSep(a) && NoSep(b) && NoSep(c)
    ensures NoSep(a + b + c)
  {
    NoSepConcat(a, b);
    NoSepConcat(a + b, c);
  }

  /** A text holding neither separator character has no separator. */
  lemma NoSepChars(s: string)
    requires '/' !in s && '\\' !in s
    ensures NoSep(s)
  {
    forall i | 0 <= i < |s| ensures !IsSep(s[i]) {
      assert s[i] in s;
    }
  }

  /** The joined path starts with the folder. */
  lemma JoinPrefix(folder: string, name: string)
    ensures Join(folder, name)[..|folder|] == folder
  {
    var rest := AfterDrive(folder);
    if rest != [] && !IsSep(rest[|rest| - 1]) {
      Associate(folder, "\\", name);
      TakePrefix(folder, "\\" + name);
    } else {
      TakePrefix(folder, name);
    }
  }

  /** A name without separators after a prefix that ends with one is the tail. */
  lemma TailAfterSep(prefix: string, name: string)
    requires NoSep(name)
    requires prefix == [] || IsSep(prefix[|prefix| - 1])
    ensures Tail(prefix + name) == name
    decreases |name|
  {
    if name == [] {
      assert prefix + name == prefix;
    } else {
      DropLast(prefix, name);
      TailAfterSep(prefix, name[..|name| - 1]);
    }
  }

  /** The last component of a joined path is the joined name. */
  lemma BaseNameOfJoin(folder: string, name: string)
    requires NoSep(name) && |name| >= 2 && name[1] != ':'
    ensures BaseName(Join(folder, name)) == name
  {
    var p := Join(folder, name);
    var rest := AfterDrive(folder);
    if HasDrive(folder) {
      assert p[..2] == folder[..2];
      assert AfterDrive(p) == (if rest != [] && !IsSep(rest[|rest| - 1]) then rest + "\\" + name else rest + name);
      if rest != [] && !IsSep(rest[|rest| - 1]) {
        TailAfterSep(rest + "\\", name);
      } else {
        TailAfterSep(rest, name);
      }
    } else {
      assert !HasDrive(p) by {
        if |folder| == 0 {
          assert p == name;
        } else if |folder| == 1 {
          assert p[1] == (if !IsSep(folder[0]) then '\\' else name[0]);
        } else {
          assert p[0] == folder[0] && p[1] == folder[1];
        }
      }
      if rest != [] && !IsSep(rest[|rest| - 1]) {
        TailAfterSep(folder + "\\", name);
      } else {
        TailAfterSep(folder, name);
      }
    }
  }
}
