/**
 * The scaffolding scripts' own case conversion. Their `toKebab` is the
 * application's; their `toPascal` splits the space-joined inputs on runs
 * of '-', '_' and ' ' only, without looking for case changes first.
 */
module ScriptCase {
  import opened Ascii
  import CaseConversion

  function IsScriptDelim(c: char): bool {
    c == '-' || c == '_' || c == ' '
  }

  /** `toPascal(...inputs)` of the scripts: the pieces between delimiter runs, each capitalized. */
  function ToPascal(inputs: seq<string>): (r: string)
    ensures forall i :: 0 <= i < |r| ==> !IsScriptDelim(r[i])
  {
    var parts := CaseConversion.SplitRuns(Join(inputs, " "), IsScriptDelim);
    CaseConversion.CapitalizeAllAvoids(parts, IsScriptDelim);
    CaseConversion.CapitalizeAll(parts)
  }

  /** `toCamel(...inputs)` of the scripts: their `toPascal` with the first character lowered. */
  function ToCamel(inputs: seq<string>): (r: string)
    ensures |r| == |ToPascal(inputs)|
    ensures |r| > 0 ==> !IsUpper(r[0]) && r[1..] == ToPascal(inputs)[1..]
  {
    CaseConversion.LowerFirst(ToPascal(inputs))
  }

  /** A single input without delimiters is one piece: it is only capitalized. */
  lemma {:induction false} OnePiece(s: string)
    requires forall i :: 0 <= i < |s| ==> !IsScriptDelim(s[i])
    ensures ToPascal([s]) == CaseConversion.Capitalize(s)
  {
    assert Join([s], " ") == s;
    assert CaseConversion.FirstDelim(s, IsScriptDelim) == |s|;
    assert CaseConversion.SplitRuns(s, IsScriptDelim) == [s];
    assert CaseConversion.CapitalizeAll([s]) == CaseConversion.Capitalize(s) + "";
  }

  /**
   * A case change is not a word break here: in a single input without
   * delimiters, every upper-case letter after the first character comes out
   * lower-case ("fooBar" becomes "Foobar").
   */
  lemma CaseChangeIsNotABreak(s: string, i: nat)
    requires forall k :: 0 <= k < |s| ==> !IsScriptDelim(s[k])
    requires 0 < i < |s| && IsUpper(s[i])
    ensures |ToPascal([s])| == |s| && IsLower(ToPascal([s])[i])
  {
    OnePiece(s);
    var r := ToPascal([s]);
    assert r[1..] == Lower(s[1..]);
    assert r[i] == r[1..][i - 1] == LowerChar(s[1..][i - 1]);
  }
}
