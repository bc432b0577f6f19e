/**
 * The Python string operations the configuration and theming code relies on:
 * `str.split(sep)`, `str.replace(old, new)`, `str.strip()`, `str.startswith`
 * and the file-name half of `os.path.split`.
 */
module Strings {

  predicate StartsWith(s: string, prefix: string)
  {
    |prefix| <= |s| && s[..|prefix|] == prefix
  }

  /** `pat` occurs in `s` starting at index `i`. */
  predicate OccursAt(s: string, pat: string, i: int)
  {
    0 <= i && i + |pat| <= |s| && s[i..i + |pat|] == pat
  }

  /** `pat` occurs somewhere in `s`. */
  ghost predicate Occurs(s: string, pat: string)
  {
    exists i :: OccursAt(s, pat, i)
  }

  /** The number of occurrences of the character `c` in `s`. */
  function CountChar(s: string, c: char): nat
  {
    multiset(s)[c]
  }

  /**
   * `s.split(sep)`: the pieces between the leftmost non-overlapping
   * occurrences of `sep`, scanning from the left.  Python refuses an empty
   * separator, hence the precondition.
   */
  function Split(s: string, sep: string): (parts: seq<string>)
    requires sep != []
    ensures |parts| >= 1
    decreases |s|
  {
    if |s| < |sep| then [s]
    else if s[..|sep|] == sep then [""] + Split(s[|sep|..], sep)
    else
      var rest := Split(s[1..], sep);
      [[s[0]] + rest[0]] + rest[1..]
  }

  /** `sep.join(parts)`. */
  function Join(parts: seq<string>, sep: string): string
  {
    if |parts| == 0 then ""
    else if |parts| == 1 then parts[0]
    else parts[0] + sep + Join(parts[1..], sep)
  }

  /** `s.replace("", rep)`: Python puts `rep` before every character and at the end. */
  function InsertEverywhere(s: string, rep: string): string
  {
    if s == [] then rep else rep + [s[0]] + InsertEverywhere(s[1..], rep)
  }

  /** `s.replace(pat, rep)`: every leftmost non-overlapping occurrence of `pat` is replaced. */
  function ReplaceAll(s: string, pat: string, rep: string): string
    decreases |s|
  {
    if pat == [] then InsertEverywhere(s, rep)
    else if |s| < |pat| then s
    else if s[..|pat|] == pat then rep + ReplaceAll(s[|pat|..], pat, rep)
    else [s[0]] + ReplaceAll(s[1..], pat, rep)
  }

  /** Joining a first piece with a character put in front puts the character in front of the join. */
  lemma JoinPrepend(c: char, parts: seq<string>, sep: string)
    requires |parts| >= 1
    ensures Join([[c] + parts[0]] + parts[1..], sep) == [c] + Join(parts, sep)
  {
    var q := [[c] + parts[0]] + parts[1..];
    assert q[1..] == parts[1..];
  }

  /** Splitting and joining again with the same separator gives back the string. */
  lemma {:induction false} JoinSplit(s: string, sep: string)
    requires sep != []
    ensures Join(Split(s, sep), sep) == s
    decreases |s|
  {
    if |s| < |sep| {
    } else if s[..|sep|] == sep {
      var rest := Split(s[|sep|..], sep);
      JoinSplit(s[|sep|..], sep);
      assert ([""] + rest)[1..] == rest;
      assert Join([""] + rest, sep) == "" + sep + Join(rest, sep);
      assert s == sep + s[|sep|..];
    } else {
      JoinSplit(s[1..], sep);
      JoinPrepend(s[0], Split(s[1..], sep), sep);
      assert s == [s[0]] + s[1..];
    }
  }

  /** Text in which a non-empty pattern does not occur is left as it is. */
  lemma {:induction false} ReplaceAbsent(s: string, pat: string, rep: string)
    requires pat != [] && !Occurs(s, pat)
    ensures ReplaceAll(s, pat, rep) == s
    decreases |s|
  {
    if |s| < |pat| {
    } else {
      assert s[0..0 + |pat|] == s[..|pat|];
      assert !OccursAt(s, pat, 0);
      forall i | OccursAt(s[1..], pat, i) ensures OccursAt(s, pat, i + 1) {
        assert s[i + 1..i + 1 + |pat|] == s[1..][i..i + |pat|];
      }
      ReplaceAbsent(s[1..], pat, rep);
    }
  }

  /**
   * `s.replace(p, r) == r.join(s.split(p))`: the text between the
   * occurrences of a non-empty pattern is kept as it is, and each occurrence
   * becomes `rep`.
   */
  lemma {:induction false} ReplaceSplitJoin(s: string, pat: string, rep: string)
    requires pat != []
    ensures ReplaceAll(s, pat, rep) == Join(Split(s, pat), rep)
    decreases |s|
  {
    if |s| < |pat| {
    } else if s[..|pat|] == pat {
      var rest := Split(s[|pat|..], pat);
      ReplaceSplitJoin(s[|pat|..], pat, rep);
      assert ([""] + rest)[1..] == rest;
      assert Join([""] + rest, rep) == "" + rep + Join(rest, rep);
    } else {
      ReplaceSplitJoin(s[1..], pat, rep);
      JoinPrepend(s[0], Split(s[1..], pat), rep);
    }
  }

  /**
   * A prefix that does not hold the first character of a non-empty pattern
   * holds no occurrence start, so `replace` keeps it and works on the rest.
   */
  lemma {:induction false} ReplaceKeepsPrefix(a: string, b: string, pat: string, rep: string)
    requires pat != [] && pat[0] !in a
    ensures ReplaceAll(a + b, pat, rep) == a + ReplaceAll(b, pat, rep)
    decreases |a|
  {
    if a != [] {
      var s := a + b;
      assert s[0] == a[0];
      assert s[1..] == a[1..] + b;
      ReplaceKeepsPrefix(a[1..], b, pat, rep);
      if |s| < |pat| {
        assert |b| < |pat|;
      }
    } else {
      assert a + b == b;
    }
  }

  /** Every occurrence of the character `c` in `s` turned into `d`. */
  function SwapChar(s: string, c: char, d: char): (r: string)
    ensures |r| == |s| && forall i :: 0 <= i < |s| ==> r[i] == if s[i] == c then d else s[i]
  {
    seq(|s|, i requires 0 <= i < |s| => if s[i] == c then d else s[i])
  }

  /** Replacing one character by one character maps the text character by character. */
  lemma {:induction false} ReplaceCharByChar(s: string, c: char, d: char)
    ensures ReplaceAll(s, [c], [d]) == SwapChar(s, c, d)
    decreases |s|
  {
    if s != [] {
      ReplaceCharByChar(s[1..], c, d);
      assert s[..1] == [s[0]];
    }
  }

  /** Splitting at a single character gives one piece more than it has occurrences. */
  lemma {:induction false} SplitCharCount(s: string, c: char)
    ensures |Split(s, [c])| == CountChar(s, c) + 1
    decreases |s|
  {
    if |s| >= 1 {
      assert s == [s[0]] + s[1..];
      assert multiset(s) == multiset([s[0]]) + multiset(s[1..]);
      SplitCharCount(s[1..], c);
    }
  }

  /** Splitting at a character that does not occur gives the whole text. */
  lemma {:induction false} SplitMissingChar(s: string, c: char)
    requires c !in s
    ensures Split(s, [c]) == [s]
    decreases |s|
  {
    if |s| >= 1 {
      assert s[0] in s && s[..1] != [c];
      assert forall x :: x in s[1..] ==> x in s;
      SplitMissingChar(s[1..], c);
      assert [s[0]] + s[1..] == s;
    }
  }

  /** Text with a single occurrence of the character splits into the text before and after it. */
  lemma {:induction false} SplitAtOnlyChar(a: string, b: string, c: char)
    requires c !in a && c !in b
    ensures Split(a + [c] + b, [c]) == [a, b]
    decreases |a|
  {
    var s := a + [c] + b;
    if a == [] {
      assert s[..1] == [c] && s[1..] == b;
      SplitMissingChar(b, c);
    } else {
      assert a[0] in a;
      assert forall x :: x in a[1..] ==> x in a;
      assert s[..1] != [c] && s[1..] == a[1..] + [c] + b && s[0] == a[0];
      SplitAtOnlyChar(a[1..], b, c);
      assert [s[0]] + a[1..] == a;
    }
  }

  /** Splitting text that ends with the separator character gives an empty last piece. */
  lemma {:induction false} SplitCharAppend(a: string, c: char)
    ensures Split(a + [c], [c]) == Split(a, [c]) + [""]
    decreases |a|
  {
    var s := a + [c];
    if a == [] {
      assert s[..1] == [c] && s[1..] == [];
    } else if a[0] == c {
      assert s[..1] == [c] && s[1..] == a[1..] + [c];
      SplitCharAppend(a[1..], c);
    } else {
      assert s[..1] != [c] && s[1..] == a[1..] + [c] && s[0] == a[0];
      SplitCharAppend(a[1..], c);
    }
  }

  /** Text before the first occurrence of a character is the first piece; the rest splits on its own. */
  lemma {:induction false} SplitAtFirstChar(a: string, rest: string, c: char)
    requires c !in a
    ensures Split(a + [c] + rest, [c]) == [a] + Split(rest, [c])
    decreases |a|
  {
    var s := a + [c] + rest;
    if a == [] {
      assert s[..1] == [c] && s[1..] == rest;
    } else {
      assert a[0] in a;
      assert forall x :: x in a[1..] ==> x in a;
      assert s[..1] != [c] && s[1..] == a[1..] + [c] + rest && s[0] == a[0];
      SplitAtFirstChar(a[1..], rest, c);
      assert [s[0]] + a[1..] == a;
    }
  }

  /** Python's `str.isspace()` characters, the ones `str.strip()` removes. */
  predicate IsSpace(ch: char)
  {
    var n := ch as int;
    n == 32 || 9 <= n <= 13 || 28 <= n <= 31 || n == 0x85 || n == 0xA0 || n == 0x1680
    || 0x2000 <= n <= 0x200A || n == 0x2028 || n == 0x2029 || n == 0x202F || n == 0x205F
    || n == 0x3000
  }

  /** Every character of `s` is whitespace. */
  predicate AllSpace(s: string)
  {
    forall j :: 0 <= j < |s| ==> IsSpace(s[j])
  }

  /** `s.lstrip()`. */
  function LStrip(s: string): string
  {
    if s != [] && IsSpace(s[0]) then LStrip(s[1..]) else s
  }

  /** `s.rstrip()`. */
  function RStrip(s: string): string
  {
    if s != [] && IsSpace(s[|s| - 1]) then RStrip(s[..|s| - 1]) else s
  }

  /** `s.strip()`. */
  function Strip(s: string): string
  {
    RStrip(LStrip(s))
  }

  /** Whitespace followed by whitespace is whitespace. */
  lemma AllSpaceConcat(a: string, b: string)
    requires AllSpace(a) && AllSpace(b)
    ensures AllSpace(a + b)
  {
    assert forall j :: 0 <= j < |a| ==> (a + b)[j] == a[j];
    assert forall j :: |a| <= j < |a + b| ==> (a + b)[j] == b[j - |a|];
  }

  /** `lstrip` removes a run of leading whitespace, and what it keeps does not start with whitespace. */
  lemma {:induction false} LStripSpec(s: string) returns (lead: string)
    ensures s == lead + LStrip(s) && AllSpace(lead)
    ensures LStrip(s) == [] || !IsSpace(LStrip(s)[0])
    decreases |s|
  {
    if s != [] && IsSpace(s[0]) {
      var l := LStripSpec(s[1..]);
      var first := [s[0]];
      assert AllSpace(first);
      AllSpaceConcat(first, l);
      lead := first + l;
      assert s == first + s[1..];
      assert s == first + (l + LStrip(s[1..]));
    } else {
      lead := [];
    }
  }

  /** `rstrip` removes a run of trailing whitespace, and what it keeps does not end with whitespace. */
  lemma {:induction false} RStripSpec(s: string) returns (trail: string)
    ensures s == RStrip(s) + trail && AllSpace(trail)
    ensures RStrip(s) == [] || !IsSpace(RStrip(s)[|RStrip(s)| - 1])
    decreases |s|
  {
    if s != [] && IsSpace(s[|s| - 1]) {
      var init := s[..|s| - 1];
      var t := RStripSpec(init);
      var last := [s[|s| - 1]];
      assert AllSpace(last);
      AllSpaceConcat(t, last);
      trail := t + last;
      assert s == init + last;
      assert s == (RStrip(init) + t) + last;
    } else {
      trail := [];
    }
  }

  /** `strip` keeps the middle of the text: whitespace only around it, and none at either of its ends. */
  lemma StripSpec(s: string) returns (lead: string, trail: string)
    ensures s == lead + Strip(s) + trail && AllSpace(lead) && AllSpace(trail)
    ensures Strip(s) == [] || (!IsSpace(Strip(s)[0]) && !IsSpace(Strip(s)[|Strip(s)| - 1]))
  {
    lead := LStripSpec(s);
    trail := RStripSpec(LStrip(s));
    var l := LStrip(s);
    var r := RStrip(l);
    assert s == lead + (r + trail);
    if r != [] {
      assert l[0] == r[0];
    }
  }

  /** A path separator of Windows paths, which accept both slashes. */
  predicate IsSeparator(ch: char)
  {
    ch == '\\' || ch == '/'
  }

  /**
   * The tail of `os.path.split(path)` (also `os.path.basename`): what follows
   * the last separator.
   */
  function Basename(path: string): string
  {
    if path == [] || IsSeparator(path[|path| - 1]) then []
    else Basename(path[..|path| - 1]) + [path[|path| - 1]]
  }

  /** The file name is the longest suffix of the path without a separator. */
  lemma {:induction false} BasenameIsLastComponent(path: string)
    ensures |Basename(path)| <= |path| && Basename(path) == path[|path| - |Basename(path)|..]
    ensures forall ch :: ch in Basename(path) ==> !IsSeparator(ch)
    ensures |Basename(path)| < |path| ==> IsSeparator(path[|path| - |Basename(path)| - 1])
    decreases |path|
  {
    if path != [] && !IsSeparator(path[|path| - 1]) {
      var init := path[..|path| - 1];
      BasenameIsLastComponent(init);
      assert path == init + [path[|path| - 1]];
    }
  }
}
