/**
 * PostgreSQL `ILIKE` as the venues handler relies on it: `%` matches any run
 * of characters, `_` any single character, a backslash makes the next
 * character literal, and letters compare without regard to (ASCII) case.
 */
module Like {
  import opened Text

  /** `text ILIKE pattern`. */
  predicate ILike(text: string, pattern: string)
    decreases |text| + |pattern|
  {
    if pattern == [] then text == []
    else if pattern[0] == '%' then
      ILike(text, pattern[1..]) || (text != [] && ILike(text[1..], pattern))
    else if pattern[0] == '_' then
      text != [] && ILike(text[1..], pattern[1..])
    else if pattern[0] == '\\' then
      // A pattern may not end in a lone escape; the engine rejects it, and no
      // pattern built by the handlers does.
      |pattern| >= 2 && text != [] && LowerChar(text[0]) == LowerChar(pattern[1]) &&
      ILike(text[1..], pattern[2..])
    else
      text != [] && LowerChar(text[0]) == LowerChar(pattern[0]) && ILike(text[1..], pattern[1..])
  }

  /** The characters that mean something inside a LIKE pattern. */
  predicate IsSpecial(c: char) {
    c == '%' || c == '_' || c == '\\'
  }

  /** `s` quoted for use inside a LIKE pattern: each special character is escaped. */
  function Escape(s: string): (r: string)
    ensures |r| >= |s|
    ensures (forall i :: 0 <= i < |s| ==> !IsSpecial(s[i])) ==> r == s
  {
    if s == [] then []
    else if IsSpecial(s[0]) then ['\\', s[0]] + Escape(s[1..])
    else [s[0]] + Escape(s[1..])
  }

  /** `%` alone matches every text. */
  lemma {:induction false} PercentMatchesAll(text: string)
    ensures ILike(text, "%")
  {
    if text != [] {
      PercentMatchesAll(text[1..]);
    }
  }

  /** A leading `%` lets the rest of the pattern match any suffix of the text. */
  lemma {:induction false} LeadingPercent(text: string, rest: string)
    ensures ILike(text, ['%'] + rest) <==> exists i: nat :: i <= |text| && ILike(text[i..], rest)
  {
    var p := ['%'] + rest;
    assert p[1..] == rest;
    assert text[0..] == text;
    if text != [] {
      LeadingPercent(text[1..], rest);
      if exists i: nat :: i <= |text| && ILike(text[i..], rest) {
        var i: nat :| i <= |text| && ILike(text[i..], rest);
        if i > 0 {
          assert text[1..][i - 1..] == text[i..];
        }
      }
      if exists i: nat :: i <= |text| - 1 && ILike(text[1..][i..], rest) {
        var i: nat :| i <= |text| - 1 && ILike(text[1..][i..], rest);
        assert text[1..][i..] == text[i + 1..];
      }
    }
  }

  /** An ordinary leading pattern character matches one text character, up to case. */
  lemma LiteralStep(text: string, c: char, rest: string)
    requires !IsSpecial(c)
    ensures ILike(text, [c] + rest) <==>
      text != [] && LowerChar(text[0]) == LowerChar(c) && ILike(text[1..], rest)
  {
  }

  /** An escaped leading character matches one text character, up to case. */
  lemma EscapedStep(text: string, c: char, rest: string)
    ensures ILike(text, ['\\', c] + rest) <==>
      text != [] && LowerChar(text[0]) == LowerChar(c) && ILike(text[1..], rest)
  {
  }

  /** Equality up to case of two non-empty texts, one character at a time. */
  lemma LowerEqualStep(a: string, b: string)
    requires |a| == |b| > 0
    ensures Lower(a) == Lower(b) <==> LowerChar(a[0]) == LowerChar(b[0]) && Lower(a[1..]) == Lower(b[1..])
  {
  }

  /**
   * An escaped text followed by `%` matches exactly the texts that start,
   * up to case, with that text.
   */
  lemma {:induction false} EscapedPrefix(text: string, s: string)
    ensures ILike(text, Escape(s) + "%") <==> |s| <= |text| && Lower(text[..|s|]) == Lower(s)
  {
    if s == [] {
      PercentMatchesAll(text);
      assert Escape(s) + "%" == "%";
      assert Lower(text[..0]) == Lower(s) == [];
    } else {
      var rest := Escape(s[1..]) + "%";
      if IsSpecial(s[0]) {
        assert Escape(s) + "%" == ['\\', s[0]] + rest;
        EscapedStep(text, s[0], rest);
      } else {
        assert Escape(s) + "%" == [s[0]] + rest;
        LiteralStep(text, s[0], rest);
      }
      if text != [] {
        EscapedPrefix(text[1..], s[1..]);
        if |s| <= |text| {
          assert text[..|s|][1..] == text[1..][..|s| - 1];
          LowerEqualStep(text[..|s|], s);
        }
      }
    }
  }

  /**
   * `name ILIKE '%' || escaped(s) || '%'` holds exactly when `s` occurs in
   * `name` regardless of case.
   */
  lemma EscapedContainsPattern(text: string, s: string)
    ensures ILike(text, "%" + Escape(s) + "%") <==> ContainsIgnoringCase(text, s)
  {
    var rest := Escape(s) + "%";
    assert "%" + Escape(s) + "%" == ['%'] + rest;
    LeadingPercent(text, rest);
    ContainsIgnoringCaseAt(text, s);
    forall i: nat | i <= |text|
      ensures ILike(text[i..], rest) <==> OccursIgnoringCaseAt(text, s, i)
    {
      EscapedPrefix(text[i..], s);
      if |s| <= |text| - i {
        assert text[i..][..|s|] == text[i..i + |s|];
      }
    }
  }
}
