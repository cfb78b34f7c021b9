/**
 * PostgreSQL's `LIKE` operator with its default escape character: in a
 * pattern `%` matches any run of characters, `_` matches exactly one, a
 * backslash makes the next character literal, and every other character
 * matches itself. Matching is case-sensitive and covers the whole text.
 */
module LikePattern {

  predicate IsSpecial(c: char) {
    c == '%' || c == '_' || c == '\\'
  }

  /** A query that `LIKE` reads literally: no wildcard and no escape character. */
  predicate IsLiteral(q: string) {
    forall i :: 0 <= i < |q| ==> !IsSpecial(q[i])
  }

  /** `q` occurs in `t` starting at position `i`. */
  predicate OccursAt(t: string, q: string, i: int) {
    0 <= i <= |t| - |q| && t[i..i + |q|] == q
  }

  /** `q` occurs in `t` as a contiguous run of characters. */
  predicate Contains(t: string, q: string) {
    exists i :: 0 <= i <= |t| - |q| && OccursAt(t, q, i)
  }

  /**
   * `text LIKE pattern`. A pattern that ends in a lone escape character is an
   * error in PostgreSQL; it matches nothing here (the search pattern, which
   * always ends in `%`, never has one).
   */
  function Matches(pattern: string, text: string): bool
    decreases |pattern| + |text|
  {
    if pattern == [] then text == []
    else if pattern[0] == '%' then
      Matches(pattern[1..], text) || (text != [] && Matches(pattern, text[1..]))
    else if pattern[0] == '_' then
      text != [] && Matches(pattern[1..], text[1..])
    else if pattern[0] == '\\' then
      |pattern| >= 2 && text != [] && text[0] == pattern[1] && Matches(pattern[2..], text[1..])
    else
      text != [] && text[0] == pattern[0] && Matches(pattern[1..], text[1..])
  }

  /** The pattern `%` matches every text. */
  lemma {:induction false} PercentMatchesAll(text: string)
    ensures Matches("%", text)
  {
    if text != [] {
      PercentMatchesAll(text[1..]);
    }
  }

  /** A literal followed by `%` matches exactly the texts that start with the literal. */
  lemma {:induction false} LiteralPrefix(q: string, text: string)
    requires IsLiteral(q)
    ensures Matches(q + "%", text) <==> |q| <= |text| && text[..|q|] == q
  {
    if q == [] {
      assert q + "%" == "%";
      PercentMatchesAll(text);
    } else {
      var p := q + "%";
      assert p[0] == q[0] && !IsSpecial(q[0]);
      assert p[1..] == q[1..] + "%";
      assert IsLiteral(q[1..]) by {
        forall i | 0 <= i < |q[1..]| ensures !IsSpecial(q[1..][i]) {
          assert q[1..][i] == q[i + 1];
        }
      }
      if text != [] {
        LiteralPrefix(q[1..], text[1..]);
        if |q| <= |text| {
          assert text[..|q|] == [text[0]] + text[1..][..|q| - 1];
          assert q == [q[0]] + q[1..];
        }
      }
    }
  }

  /** A leading `%` lets the rest of the pattern match any suffix of the text. */
  lemma {:induction false} LeadingPercent(rest: string, text: string)
    ensures Matches("%" + rest, text) <==> exists i :: 0 <= i <= |text| && Matches(rest, text[i..])
  {
    var p := "%" + rest;
    assert p[0] == '%' && p[1..] == rest;
    if text == [] {
      assert text[0..] == text;
    } else {
      LeadingPercent(rest, text[1..]);
      assert text[0..] == text;
      if exists i :: 0 <= i <= |text| && Matches(rest, text[i..]) {
        var i :| 0 <= i <= |text| && Matches(rest, text[i..]);
        if i > 0 {
          assert text[1..][i - 1..] == text[i..];
        }
      }
      if exists i :: 0 <= i <= |text[1..]| && Matches(rest, text[1..][i..]) {
        var i :| 0 <= i <= |text[1..]| && Matches(rest, text[1..][i..]);
        assert text[1..][i..] == text[i + 1..];
      }
    }
  }

  /**
   * For a literal query, the search pattern `%q%` matches exactly the texts
   * containing `q`, case-sensitively.
   */
  lemma SearchPatternIsSubstring(q: string, text: string)
    requires IsLiteral(q)
    ensures Matches("%" + q + "%", text) <==> Contains(text, q)
  {
    assert "%" + q + "%" == "%" + (q + "%");
    LeadingPercent(q + "%", text);
    if Matches("%" + q + "%", text) {
      var i :| 0 <= i <= |text| && Matches(q + "%", text[i..]);
      LiteralPrefix(q, text[i..]);
      assert text[i..][..|q|] == text[i..i + |q|];
      assert OccursAt(text, q, i);
    }
    if Contains(text, q) {
      var i :| 0 <= i <= |text| - |q| && OccursAt(text, q, i);
      LiteralPrefix(q, text[i..]);
      assert text[i..][..|q|] == text[i..i + |q|];
      assert Matches(q + "%", text[i..]);
    }
  }

  /** The empty query gives the pattern `%%`, which matches every text. */
  lemma EmptyQueryMatchesAll(text: string)
    ensures Matches("%" + "" + "%", text)
  {
    assert IsLiteral("");
    SearchPatternIsSubstring("", text);
    assert OccursAt(text, "", 0);
  }
}
