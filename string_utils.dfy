/**
 * Case conversion of identifiers (`toKebab`, `toPascal`, `toCamel`) on
 * ASCII text. Each conversion takes several inputs and first joins them
 * with single spaces.
 */
module CaseConversion {
  import opened Ascii

  /** A lower-case letter or digit followed by an upper-case letter: where `toKebab` puts a dash. */
  predicate StartsPair(c: char, d: char) {
    (IsLower(c) || IsDigit(c)) && IsUpper(d)
  }

  /** The characters other than '-', in order. */
  function WithoutDashes(s: string): (r: string)
    ensures forall i :: 0 <= i < |r| ==> r[i] != '-'
  {
    if s == [] then [] else (if s[0] == '-' then [] else [s[0]]) + WithoutDashes(s[1..])
  }

  /**
   * `replace(/([a-z0-9])([A-Z])/g, "$1-$2")`: scanning left to right, a dash
   * goes between each such pair, and a matched pair is not scanned again.
   */
  function InsertDashes(s: string): (r: string)
    ensures |s| > 0 ==> |r| > 0 && r[0] == s[0]
    ensures forall i :: 0 <= i < |r| - 1 ==> !StartsPair(r[i], r[i + 1])
    ensures WithoutDashes(r) == WithoutDashes(s)
    ensures NoUpper(s) ==> r == s
    decreases |s|
  {
    if |s| >= 2 && StartsPair(s[0], s[1]) then
      var rest := InsertDashes(s[2..]);
      assert WithoutDashes(s) == [s[0]] + WithoutDashes(s[1..]);
      assert WithoutDashes(s[1..]) == [s[1]] + WithoutDashes(s[2..]);
      var r := [s[0], '-', s[1]] + rest;
      assert r[3..] == rest;
      assert WithoutDashes(r) == [s[0]] + WithoutDashes(r[1..]);
      assert WithoutDashes(r[1..]) == WithoutDashes(r[2..]);
      assert WithoutDashes(r[2..]) == [s[1]] + WithoutDashes(r[3..]);
      r
    else if s == [] then []
    else
      var rest := InsertDashes(s[1..]);
      var r := [s[0]] + rest;
      assert r[1..] == rest;
      r
  }

  /**
   * The reference for the dash step: the first character, then each later
   * character preceded by a dash exactly when it closes a pair.
   */
  function Dashed(s: string): string
    decreases |s|
  {
    if |s| <= 1 then s
    else [s[0]] + (if StartsPair(s[0], s[1]) then "-" else "") + Dashed(s[1..])
  }

  /**
   * The left-to-right scan misses no pair: the upper-case letter that closes a
   * matched pair cannot open the next one.
   */
  lemma {:induction false} InsertDashesIsDashed(s: string)
    ensures InsertDashes(s) == Dashed(s)
    decreases |s|
  {
    if |s| >= 2 && StartsPair(s[0], s[1]) {
      InsertDashesIsDashed(s[2..]);
      assert s[1..][1..] == s[2..];
      if |s| >= 3 {
        assert !StartsPair(s[1], s[2]);
        assert Dashed(s[1..]) == [s[1]] + Dashed(s[2..]);
      }
    } else if |s| >= 2 {
      InsertDashesIsDashed(s[1..]);
    } else if |s| == 1 {
      assert InsertDashes(s) == [s[0]] + InsertDashes(s[1..]);
    }
  }

  /** What `\s` and '_' match: the characters whose runs become one '-'. */
  predicate IsSep(c: char) {
    IsSpace(c) || c == '_'
  }

  predicate NoSep(s: string) {
    forall i :: 0 <= i < |s| ==> !IsSep(s[i])
  }

  predicate AllSep(s: string) {
    forall i :: 0 <= i < |s| ==> IsSep(s[i])
  }

  /** The text after its leading run of separators. */
  function DropSeps(s: string): (r: string)
    ensures |r| <= |s|
    ensures s != [] && IsSep(s[0]) ==> |r| < |s|
    ensures r == [] || !IsSep(r[0])
  {
    if s != [] && IsSep(s[0]) then DropSeps(s[1..]) else s
  }

  /** `replace(/[\s_]+/g, "-")`. */
  function CollapseRuns(s: string): (r: string)
    ensures NoSep(r)
    decreases |s|
  {
    if s == [] then []
    else if IsSep(s[0]) then "-" + CollapseRuns(DropSeps(s))
    else [s[0]] + CollapseRuns(s[1..])
  }

  /** A text without separators is left as it is. */
  lemma {:induction false} CollapseRunsWithoutSeps(s: string)
    requires NoSep(s)
    ensures CollapseRuns(s) == s
  {
    if s != [] {
      CollapseRunsWithoutSeps(s[1..]);
    }
  }

  lemma {:induction false} DropSepsKeepsLast(x: string)
    requires x != [] && !IsSep(x[|x| - 1])
    ensures DropSeps(x) != [] && DropSeps(x)[|DropSeps(x)| - 1] == x[|x| - 1]
  {
    if IsSep(x[0]) {
      DropSepsKeepsLast(x[1..]);
    }
  }

  lemma {:induction false} DropSepsOfRun(run: string, y: string)
    requires AllSep(run)
    requires y == [] || !IsSep(y[0])
    ensures DropSeps(run + y) == y
    decreases |run|
  {
    if run == [] {
      assert run + y == y;
    } else {
      assert (run + y)[1..] == run[1..] + y;
      DropSepsOfRun(run[1..], y);
    }
  }

  lemma {:induction false} DropSepsOfPrefix(x: string, rest: string)
    requires x != [] && !IsSep(x[|x| - 1])
    ensures DropSeps(x + rest) == DropSeps(x) + rest
    decreases |x|
  {
    if IsSep(x[0]) {
      assert (x + rest)[1..] == x[1..] + rest;
      DropSepsOfPrefix(x[1..], rest);
    }
  }

  lemma Regroup(a: string, b: string, c: string, d: string)
    ensures a + (b + c + d) == a + b + c + d
  {
  }

  /** Every maximal run of separators, wherever it stands, becomes exactly one '-'. */
  lemma {:induction false} RunBecomesOneDash(x: string, run: string, y: string)
    requires x == [] || !IsSep(x[|x| - 1])
    requires run != [] && AllSep(run)
    requires y == [] || !IsSep(y[0])
    ensures CollapseRuns(x + run + y) == CollapseRuns(x) + "-" + CollapseRuns(y)
    decreases |x|
  {
    var s := x + run + y;
    if x == [] {
      assert DropSeps(s) == y by {
        assert s == run + y;
        DropSepsOfRun(run, y);
      }
    } else if IsSep(x[0]) {
      var d := DropSeps(x);
      assert DropSeps(s) == d + run + y by {
        DropSepsOfPrefix(x, run + y);
        assert s == x + (run + y);
      }
      DropSepsKeepsLast(x);
      RunBecomesOneDash(d, run, y);
      var cd, cy := CollapseRuns(d), CollapseRuns(y);
      assert CollapseRuns(s) == "-" + (cd + "-" + cy);
      Regroup("-", cd, "-", cy);
    } else {
      assert s[1..] == x[1..] + run + y;
      RunBecomesOneDash(x[1..], run, y);
      var cx, cy := CollapseRuns(x[1..]), CollapseRuns(y);
      assert CollapseRuns(s) == [x[0]] + (cx + "-" + cy);
      Regroup([x[0]], cx, "-", cy);
    }
  }

  /** Lower-casing creates no separator. */
  lemma LowerKeepsNoSep(s: string)
    requires NoSep(s)
    ensures NoSep(Lower(s))
  {
    forall i | 0 <= i < |s| ensures !IsSep(Lower(s)[i]) {
      assert Lower(s)[i] == LowerChar(s[i]);
    }
  }

  /** `toKebab` of one string: dashes at case changes, separator runs as dashes, then lower case. */
  function KebabOf(s: string): (r: string)
    ensures NoUpper(r) && NoSep(r)
  {
    var c := CollapseRuns(InsertDashes(s));
    LowerKeepsNoSep(c);
    Lower(c)
  }

  /** `toKebab(...inputs)`. */
  function ToKebab(inputs: seq<string>): (r: string)
    ensures NoUpper(r) && NoSep(r)
  {
    KebabOf(Join(inputs, " "))
  }

  /** A kebab-case string is its own kebab case. */
  lemma KebabIdempotent(s: string)
    ensures KebabOf(KebabOf(s)) == KebabOf(s)
  {
    var k := KebabOf(s);
    assert InsertDashes(k) == k;
    CollapseRunsWithoutSeps(k);
    LowerOfNoUpper(k);
  }

  /** The characters other than the delimiters, in order. */
  function Keep(s: string, delim: char -> bool): (r: string)
    ensures forall i :: 0 <= i < |r| ==> !delim(r[i])
  {
    if s == [] then [] else (if delim(s[0]) then [] else [s[0]]) + Keep(s[1..], delim)
  }

  /** The text after its leading run of delimiters. */
  function DropDelims(s: string, delim: char -> bool): (r: string)
    ensures |r| <= |s| && r == s[|s| - |r|..]
    ensures Keep(r, delim) == Keep(s, delim)
    ensures s != [] && delim(s[0]) ==> |r| < |s|
  {
    if s != [] && delim(s[0]) then DropDelims(s[1..], delim) else s
  }

  /** The index of the first delimiter, or the length when there is none. */
  function FirstDelim(s: string, delim: char -> bool): (i: nat)
    ensures i <= |s|
    ensures forall j :: 0 <= j < i ==> !delim(s[j])
    ensures i < |s| ==> delim(s[i])
  {
    if s == [] || delim(s[0]) then 0 else 1 + FirstDelim(s[1..], delim)
  }

  function Concat(parts: seq<string>): string {
    if parts == [] then "" else parts[0] + Concat(parts[1..])
  }

  lemma {:induction false} KeepConcat(a: string, b: string, delim: char -> bool)
    ensures Keep(a + b, delim) == Keep(a, delim) + Keep(b, delim)
  {
    if a == [] {
      assert a + b == b;
    } else {
      assert (a + b)[1..] == a[1..] + b;
      KeepConcat(a[1..], b, delim);
    }
  }

  lemma {:induction false} KeepAll(s: string, delim: char -> bool)
    requires forall j :: 0 <= j < |s| ==> !delim(s[j])
    ensures Keep(s, delim) == s
  {
    if s != [] {
      KeepAll(s[1..], delim);
    }
  }

  /**
   * `split` on a regular expression matching runs of delimiters: the pieces
   * between runs, with an empty piece before a leading run and after a trailing one.
   */
  function SplitRuns(s: string, delim: char -> bool): (parts: seq<string>)
    ensures |parts| > 0
    ensures forall p, i :: p in parts && 0 <= i < |p| ==> !delim(p[i])
    decreases |s|
  {
    var i := FirstDelim(s, delim);
    if i == |s| then [s]
    else [s[..i]] + SplitRuns(DropDelims(s[i..], delim), delim)
  }

  /** Splitting loses the delimiters and nothing else. */
  lemma {:induction false} SplitLosesOnlyDelims(s: string, delim: char -> bool)
    ensures Concat(SplitRuns(s, delim)) == Keep(s, delim)
    decreases |s|
  {
    var i := FirstDelim(s, delim);
    if i == |s| {
      assert SplitRuns(s, delim) == [s];
      KeepAll(s, delim);
      assert Concat([s]) == s + Concat([]);
    } else {
      var d := DropDelims(s[i..], delim);
      var parts := SplitRuns(s, delim);
      var tail := SplitRuns(d, delim);
      assert parts == [s[..i]] + tail;
      assert parts[0] == s[..i] && parts[1..] == tail;
      SplitLosesOnlyDelims(d, delim);
      assert Concat(parts) == s[..i] + Keep(d, delim);
      KeepSplitAt(s, i, delim);
      KeepAll(s[..i], delim);
    }
  }

  lemma KeepSplitAt(s: string, i: nat, delim: char -> bool)
    requires i <= |s|
    ensures Keep(s, delim) == Keep(s[..i], delim) + Keep(s[i..], delim)
  {
    assert s == s[..i] + s[i..];
    KeepConcat(s[..i], s[i..], delim);
  }

  /** Every character of a piece is a character of the split text. */
  lemma {:induction false} SplitPiecesFromText(s: string, delim: char -> bool)
    ensures forall p, i :: p in SplitRuns(s, delim) && 0 <= i < |p| ==> p[i] in s
    decreases |s|
  {
    var i := FirstDelim(s, delim);
    if i == |s| {
      assert SplitRuns(s, delim) == [s];
    } else {
      var t := s[i..];
      var d := DropDelims(t, delim);
      var rest := SplitRuns(d, delim);
      assert SplitRuns(s, delim) == [s[..i]] + rest;
      SplitPiecesFromText(d, delim);
      SliceChars(t, |t| - |d|, |t|);
      SliceChars(s, i, |s|);
      SliceChars(s, 0, i);
      forall p, j | p in [s[..i]] + rest && 0 <= j < |p|
        ensures p[j] in s
      {
        if p in rest {
          assert p[j] in d;
        }
      }
    }
  }

  lemma SliceChars(s: string, lo: nat, hi: nat)
    requires lo <= hi <= |s|
    ensures forall c :: c in s[lo..hi] ==> c in s
  {
    forall c | c in s[lo..hi]
      ensures c in s
    {
      var j :| 0 <= j < hi - lo && s[lo..hi][j] == c;
      assert s[lo + j] == c;
    }
  }

  /** `s.charAt(0).toUpperCase() + s.slice(1).toLowerCase()`. */
  function Capitalize(s: string): (r: string)
    ensures |r| == |s|
    ensures |s| > 0 ==> r[0] == UpperChar(s[0]) && r[1..] == Lower(s[1..])
  {
    if s == [] then [] else [UpperChar(s[0])] + Lower(s[1..])
  }

  /** Each part capitalized, joined with nothing between. */
  function CapitalizeAll(parts: seq<string>): string {
    if parts == [] then "" else Capitalize(parts[0]) + CapitalizeAll(parts[1..])
  }

  /** Case mapping never produces a character outside the letters it maps. */
  predicate KeptByCaseMapping(c: char) {
    !IsLower(c) && !IsUpper(c)
  }

  lemma {:induction false} CapitalizeAllAvoids(parts: seq<string>, bad: char -> bool)
    requires forall c :: bad(c) ==> KeptByCaseMapping(c)
    requires forall p, i :: p in parts && 0 <= i < |p| ==> !bad(p[i])
    ensures forall i :: 0 <= i < |CapitalizeAll(parts)| ==> !bad(CapitalizeAll(parts)[i])
  {
    if parts != [] {
      CapitalizeAllAvoids(parts[1..], bad);
      var cap := Capitalize(parts[0]);
      forall i | 0 <= i < |cap| ensures !bad(cap[i]) {
        if i > 0 {
          assert cap[i] == Lower(parts[0][1..])[i - 1] == LowerChar(parts[0][i]);
        }
      }
    }
  }

  function IsDash(c: char): bool { c == '-' }

  /** '-' or a separator: the characters no Pascal-case result holds. */
  function DashOrSep(c: char): bool { c == '-' || IsSep(c) }

  /** `toPascal` of one string: its kebab case split on runs of '-', each piece capitalized. */
  function PascalOf(s: string): (r: string)
    ensures forall i :: 0 <= i < |r| ==> r[i] != '-' && !IsSep(r[i])
  {
    var k := KebabOf(s);
    var parts := SplitRuns(k, IsDash);
    SplitPiecesFromText(k, IsDash);
    forall p, i | p in parts && 0 <= i < |p| ensures !DashOrSep(p[i]) {
      var j :| 0 <= j < |k| && k[j] == p[i];
    }
    CapitalizeAllAvoids(parts, DashOrSep);
    CapitalizeAll(parts)
  }

  /** `toPascal(...inputs)`. */
  function ToPascal(inputs: seq<string>): (r: string)
    ensures forall i :: 0 <= i < |r| ==> r[i] != '-' && !IsSep(r[i])
  {
    PascalOf(Join(inputs, " "))
  }

  /** Converting to kebab case first changes nothing: `toPascal(x) == toPascal(toKebab(x))`. */
  lemma PascalOfKebab(inputs: seq<string>)
    ensures ToPascal([ToKebab(inputs)]) == ToPascal(inputs)
  {
    var k := ToKebab(inputs);
    assert Join([k], " ") == k;
    KebabIdempotent(Join(inputs, " "));
  }

  /** `p.charAt(0).toLowerCase() + p.slice(1)`. */
  function LowerFirst(p: string): (r: string)
    ensures |r| == |p|
    ensures |p| > 0 ==> r[0] == LowerChar(p[0]) && r[1..] == p[1..]
  {
    if p == [] then [] else [LowerChar(p[0])] + p[1..]
  }

  /** `toCamel(...inputs)`: the Pascal case of the kebab case, with its first character lowered. */
  function ToCamel(inputs: seq<string>): (r: string)
    ensures forall i :: 0 <= i < |r| ==> r[i] != '-' && !IsSep(r[i])
    ensures |r| > 0 ==> !IsUpper(r[0])
  {
    var k := ToKebab(inputs);
    LowerFirst(ToPascal([k]))
  }

  /** `toCamel` is `toPascal` with the first character lowered. */
  lemma CamelIsLowerFirstPascal(inputs: seq<string>)
    ensures ToCamel(inputs) == LowerFirst(ToPascal(inputs))
    ensures |ToCamel(inputs)| > 0 ==> !IsUpper(ToCamel(inputs)[0])
  {
    PascalOfKebab(inputs);
  }
}
