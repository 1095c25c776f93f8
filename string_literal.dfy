/**
 * `escapeForStringLiteral`, which the scaffolding scripts use to put text
 * inside a double-quoted string literal: backslashes are doubled first,
 * then every '"' gets a backslash in front.
 */
module StringLiteral {

  /** `s.replace(/c/g, rep)` for a one-character pattern. */
  function ReplaceChar(s: string, c: char, rep: string): (r: string)
    ensures (forall i :: 0 <= i < |s| ==> s[i] != c) ==> r == s
  {
    if s == [] then [] else (if s[0] == c then rep else [s[0]]) + ReplaceChar(s[1..], c, rep)
  }

  lemma {:induction false} ReplaceCharConcat(a: string, b: string, c: char, rep: string)
    ensures ReplaceChar(a + b, c, rep) == ReplaceChar(a, c, rep) + ReplaceChar(b, c, rep)
  {
    if a == [] {
      assert a + b == b;
    } else {
      assert (a + b)[1..] == a[1..] + b;
      ReplaceCharConcat(a[1..], b, c, rep);
    }
  }

  /** The two chained replacements, as the code writes them. */
  function Escape(s: string): (r: string)
    ensures (forall i :: 0 <= i < |s| ==> s[i] != '\\' && s[i] != '"') ==> r == s
  {
    ReplaceChar(ReplaceChar(s, '\\', "\\\\"), '"', "\\\"")
  }

  /** What one input character becomes. */
  function EscapeChar(c: char): (r: string)
    ensures c == '\\' ==> r == "\\\\"
    ensures c == '"' ==> r == "\\\""
    ensures c != '\\' && c != '"' ==> r == [c]
  {
    if c == '\\' then "\\\\" else if c == '"' then "\\\"" else [c]
  }

  /** The reference definition: every character escaped on its own, in order. */
  function EscapeEach(s: string): string {
    if s == [] then [] else EscapeChar(s[0]) + EscapeEach(s[1..])
  }

  /**
   * The chained replacements escape each character on its own: the
   * backslash the second pass inserts is not doubled by the first.
   */
  lemma {:induction false} EscapeIsPerChar(s: string)
    ensures Escape(s) == EscapeEach(s)
  {
    if s != [] {
      EscapeIsPerChar(s[1..]);
      var c := s[0];
      assert s == [c] + s[1..];
      ReplaceCharConcat([c], s[1..], '\\', "\\\\");
      var once := ReplaceChar([c], '\\', "\\\\");
      assert [c][1..] == [];
      ReplaceCharConcat(once, ReplaceChar(s[1..], '\\', "\\\\"), '"', "\\\"");
      if c == '\\' {
        assert once == "\\\\";
        assert ReplaceChar(once, '"', "\\\"") == "\\\\";
      } else if c == '"' {
        assert ReplaceChar(once, '"', "\\\"") == "\\\"";
      } else {
        assert ReplaceChar(once, '"', "\\\"") == [c];
      }
    }
  }

  function Count(s: string, c: char): nat {
    if s == [] then 0 else (if s[0] == c then 1 else 0) + Count(s[1..], c)
  }

  /** Each backslash and each '"' adds exactly one character. */
  lemma {:induction false} EscapeLength(s: string)
    ensures |Escape(s)| == |s| + Count(s, '\\') + Count(s, '"')
  {
    EscapeIsPerChar(s);
    EscapeEachLength(s);
  }

  lemma {:induction false} EscapeEachLength(s: string)
    ensures |EscapeEach(s)| == |s| + Count(s, '\\') + Count(s, '"')
  {
    if s != [] {
      EscapeEachLength(s[1..]);
    }
  }

  /** Reading a literal's body back: a backslash takes the next character as it is. */
  function Unescape(t: string): string
    decreases |t|
  {
    if t == [] then []
    else if t[0] == '\\' && |t| >= 2 then [t[1]] + Unescape(t[2..])
    else [t[0]] + Unescape(t[1..])
  }

  /** Unescaping gives back the original text. */
  lemma {:induction false} UnescapeEscape(s: string)
    ensures Unescape(Escape(s)) == s
  {
    EscapeIsPerChar(s);
    UnescapeEscapeEach(s);
  }

  lemma {:induction false} UnescapeEscapeEach(s: string)
    ensures Unescape(EscapeEach(s)) == s
  {
    if s != [] {
      UnescapeEscapeEach(s[1..]);
      var e := EscapeEach(s);
      var c := s[0];
      if c == '\\' || c == '"' {
        assert e[2..] == EscapeEach(s[1..]);
      } else {
        assert e[1..] == EscapeEach(s[1..]);
      }
    }
  }

  /** The number of backslashes right before position `i`. */
  function BackslashesBefore(t: string, i: nat): nat
    requires i <= |t|
  {
    if i == 0 || t[i - 1] != '\\' then 0 else 1 + BackslashesBefore(t, i - 1)
  }

  lemma {:induction false} BackslashesBeforeInPrefix(t: string, x: string, i: nat)
    requires i <= |t|
    ensures BackslashesBefore(t + x, i) == BackslashesBefore(t, i)
  {
    if i > 0 && t[i - 1] == '\\' {
      BackslashesBeforeInPrefix(t, x, i - 1);
    }
  }

  lemma {:induction false} EscapeEachConcat(a: string, b: string)
    ensures EscapeEach(a + b) == EscapeEach(a) + EscapeEach(b)
  {
    if a == [] {
      assert a + b == b;
    } else {
      assert (a + b)[1..] == a[1..] + b;
      EscapeEachConcat(a[1..], b);
    }
  }

  /** Every '"' of `t` has an odd run of backslashes before it. */
  predicate QuotesEscaped(t: string) {
    forall i :: 0 <= i < |t| && t[i] == '"' ==> BackslashesBefore(t, i) % 2 == 1
  }

  /** Appending one escaped character keeps every '"' escaped and the trailing run even. */
  lemma AppendEscaped(r: string, c: char)
    requires QuotesEscaped(r) && BackslashesBefore(r, |r|) % 2 == 0
    ensures QuotesEscaped(r + EscapeChar(c))
    ensures BackslashesBefore(r + EscapeChar(c), |r + EscapeChar(c)|) % 2 == 0
  {
    var e := EscapeChar(c);
    var t := r + e;
    BackslashesBeforeInPrefix(r, e, |r|);
    forall i | 0 <= i < |t| && t[i] == '"' ensures BackslashesBefore(t, i) % 2 == 1 {
      if i < |r| {
        BackslashesBeforeInPrefix(r, e, i);
        assert t[i] == r[i];
      } else {
        assert c == '"' && i == |r| + 1;
        assert t[|r|] == '\\';
      }
    }
    if c == '\\' {
      assert t[|r|] == '\\' && t[|r| + 1] == '\\';
      assert BackslashesBefore(t, |r| + 1) == 1 + BackslashesBefore(t, |r|);
    } else if c == '"' {
      assert t[|r| + 1] == '"';
    } else {
      assert t[|r|] == c;
    }
  }

  lemma {:induction false} EachQuoteEscaped(s: string)
    ensures QuotesEscaped(EscapeEach(s))
    ensures BackslashesBefore(EscapeEach(s), |EscapeEach(s)|) % 2 == 0
    decreases |s|
  {
    if s != [] {
      var init, c := s[..|s| - 1], s[|s| - 1];
      assert s == init + [c];
      EachQuoteEscaped(init);
      EscapeEachConcat(init, [c]);
      assert EscapeEach([c]) == EscapeChar(c) + EscapeEach([]);
      assert EscapeEach(s) == EscapeEach(init) + EscapeChar(c);
      AppendEscaped(EscapeEach(init), c);
    }
  }

  /**
   * In the escaped text every '"' follows an odd run of backslashes, so it
   * cannot end the literal; and the text ends after an even run, so the
   * closing quote put after it is not escaped.
   */
  lemma QuotesStayEscaped(s: string)
    ensures QuotesEscaped(Escape(s))
    ensures BackslashesBefore(Escape(s), |Escape(s)|) % 2 == 0
  {
    EscapeIsPerChar(s);
    EachQuoteEscaped(s);
  }
}
