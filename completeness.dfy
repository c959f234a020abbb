/**
 * Completeness of the scanner: where the text holds what a part of the
 * pattern describes, that part matches there.  Together with the shapes
 * proved in `Pattern` (every match is an import or a require statement),
 * this says the scanner finds exactly the statements the pattern
 * describes: a quoted specifier in either quotes, a `from` clause with or
 * without its space and semicolon, a require call, and whole import and
 * require statements.
 */
module Completeness {
  import opened Wrappers
  import opened JsString
  import opened Pattern

  /** A text `x + y` sitting at `p` in `s` has `x` at `p` and `y` right after it. */
  lemma SplitAt(s: string, p: nat, x: string, y: string)
    requires p + |x| + |y| <= |s| && s[p..p + |x| + |y|] == x + y
    ensures s[p..p + |x|] == x && s[p + |x|..p + |x| + |y|] == y
  {
    assert s[p..p + |x|] == s[p..p + |x| + |y|][..|x|];
    assert s[p + |x|..p + |x| + |y|] == s[p..p + |x| + |y|][|x|..];
  }

  lemma {:induction false} NextCharAt(s: string, c: char, from: nat, j: nat)
    requires from <= j < |s| && s[j] == c && c !in s[from..j]
    ensures NextChar(s, c, from) == Some(j)
    decreases j - from
  {
    if from < j {
      assert s[from] == s[from..j][0];
      assert s[from + 1..j] == s[from..j][1..];
      NextCharAt(s, c, from + 1, j);
    }
  }

  /** The lazy part ends at `j` when no earlier position lets the continuation match and none of the characters before it ends the line. */
  lemma {:induction false} LazyEndAt(c: Clause, s: string, k: nat, j: nat)
    requires k <= j <= |s|
    requires forall x :: k <= x < j ==> ClauseAt(c, s, x).None? && !IsLineTerminator(s[x])
    requires ClauseAt(c, s, j).Some?
    ensures LazyEnd(c, s, k) == Some(j)
    decreases j - k
  {
    if k < j {
      LazyEndAt(c, s, k + 1, j);
    }
  }

  /** The quotes and the specifier of a quoted text at `q`, one by one. */
  lemma QuotedPieces(s: string, q: nat, c: char, spec: string)
    requires Spells(s, q, q + |spec| + 2, QuotedText(c, spec))
    ensures s[q] == c && s[q + 1 + |spec|] == c && s[q + 1..q + 1 + |spec|] == spec
  {
    var u := s[q..q + |spec| + 2];
    assert u == [c] + spec + [c];
    assert s[q] == u[0];
    assert s[q + 1 + |spec|] == u[|spec| + 1];
    forall i | 0 <= i < |spec| ensures s[q + 1..q + 1 + |spec|][i] == spec[i] {
      assert s[q + 1..q + 1 + |spec|][i] == u[i + 1];
    }
  }

  /** A specifier in either kind of quotes, with no such quote inside, is read as that specifier, whichever quotes it has. */
  lemma QuotedRecognized(s: string, q: nat, c: char, spec: string)
    requires GoodSpec(spec, c) && Spells(s, q, q + |spec| + 2, QuotedText(c, spec))
    ensures QuotedAt(s, q) == Some(Quoted(spec, c, q + |spec| + 2))
  {
    QuotedPieces(s, q, c, spec);
    NextCharAt(s, c, q + 1, q + 1 + |spec|);
  }

  /** The pieces of `from ?"spec";?` at `k`. */
  lemma FromClauseParts(s: string, k: nat, quote: char, spec: string, spaced: bool, semi: bool, e: nat)
    requires Spells(s, k, e, FromText(quote, spec, spaced, semi))
    ensures k + 4 <= e && s[k..k + 4] == "from"
    ensures spaced ==> s[k + 4] == ' '
    ensures Spells(s, k + 4 + |Optional(spaced, " ")|, k + 4 + |Optional(spaced, " ")| + |spec| + 2, QuotedText(quote, spec))
    ensures e == k + 4 + |Optional(spaced, " ")| + |spec| + 2 + |Optional(semi, ";")|
    ensures semi ==> s[e - 1] == ';'
  {
    var sp := Optional(spaced, " ");
    var qt := QuotedText(quote, spec);
    var sc := Optional(semi, ";");
    assert FromText(quote, spec, spaced, semi) == "from" + (sp + (qt + sc));
    SplitAt(s, k, "from", sp + (qt + sc));
    SplitAt(s, k + 4, sp, qt + sc);
    SplitAt(s, k + 4 + |sp|, qt, sc);
    if spaced {
      assert s[k + 4] == s[k + 4..k + 4 + |sp|][0];
    }
    if semi {
      assert s[e - 1] == s[e - 1..e][0];
    }
  }

  /**
   * A `from` clause that is there is found: `from`, the space if there is
   * one, the specifier in its quotes, and the semicolon if there is one
   * (one that follows the text is taken as well).
   */
  lemma FromClauseRecognized(s: string, k: nat, quote: char, spec: string, spaced: bool, semi: bool, e: nat)
    requires GoodSpec(spec, quote) && Spells(s, k, e, FromText(quote, spec, spaced, semi))
    ensures FromClause(s, k).Some? && FromClause(s, k).value.spec == spec && FromClause(s, k).value.quote == quote
    ensures FromClause(s, k).value.spaced == spaced && FromClause(s, k).value.end == (if semi then e else OptSemicolon(s, e))
  {
    FromClauseParts(s, k, quote, spec, spaced, semi, e);
    var q := k + 4 + |Optional(spaced, " ")|;
    QuotedRecognized(s, q, quote, spec);
    if !spaced {
      assert s[k + 4] == quote;
    }
  }

  /** The pieces of `require("spec");?` at `r`. */
  lemma CallParts(s: string, r: nat, quote: char, spec: string, semi: bool, e: nat)
    requires Spells(s, r, e, RequireCallText(quote, spec, semi))
    ensures r + 8 <= e && s[r..r + 8] == "require("
    ensures Spells(s, r + 8, r + 8 + |spec| + 2, QuotedText(quote, spec))
    ensures e == r + 11 + |spec| + |Optional(semi, ";")| && s[r + 10 + |spec|] == ')'
    ensures semi ==> s[e - 1] == ';'
  {
    var qt := QuotedText(quote, spec);
    var sc := Optional(semi, ";");
    assert RequireCallText(quote, spec, semi) == "require(" + (qt + (")" + sc));
    SplitAt(s, r, "require(", qt + (")" + sc));
    SplitAt(s, r + 8, qt, ")" + sc);
    SplitAt(s, r + 8 + |qt|, ")", sc);
    assert s[r + 8 + |qt|] == s[r + 8 + |qt|..r + 9 + |qt|][0];
    if semi {
      assert s[e - 1] == s[e - 1..e][0];
    }
  }

  /** A require call that is there is found, with its specifier and quotes. */
  lemma RequireCallRecognized(s: string, r: nat, quote: char, spec: string, semi: bool, e: nat)
    requires GoodSpec(spec, quote) && Spells(s, r, e, RequireCallText(quote, spec, semi))
    ensures RequireCall(s, r).Some? && RequireCall(s, r).value.spec == spec && RequireCall(s, r).value.quote == quote
    ensures RequireCall(s, r).value.end == (if semi then e else OptSemicolon(s, e))
  {
    CallParts(s, r, quote, spec, semi, e);
    QuotedRecognized(s, r + 8, quote, spec);
  }

  /** The pieces of `= ?require(...)` at `k`. */
  lemma EqualsClauseParts(s: string, k: nat, quote: char, spec: string, spaced: bool, semi: bool, e: nat)
    requires Spells(s, k, e, CallText(quote, spec, spaced, semi))
    ensures k + 1 <= e && s[k] == '='
    ensures spaced ==> s[k + 1] == ' '
    ensures Spells(s, k + 1 + |Optional(spaced, " ")|, e, RequireCallText(quote, spec, semi))
  {
    var sp := Optional(spaced, " ");
    var rc := RequireCallText(quote, spec, semi);
    assert CallText(quote, spec, spaced, semi) == "=" + (sp + rc);
    SplitAt(s, k, "=", sp + rc);
    SplitAt(s, k + 1, sp, rc);
    assert s[k] == s[k..k + 1][0];
    if spaced {
      assert s[k + 1] == s[k + 1..k + 2][0];
    }
  }

  /** An `=` clause that is there is found, with the space taken exactly when the text has it. */
  lemma EqualsClauseRecognized(s: string, k: nat, quote: char, spec: string, spaced: bool, semi: bool, e: nat)
    requires GoodSpec(spec, quote) && Spells(s, k, e, CallText(quote, spec, spaced, semi))
    ensures EqualsClause(s, k).Some? && EqualsClause(s, k).value.spec == spec && EqualsClause(s, k).value.quote == quote
    ensures EqualsClause(s, k).value.spaced == spaced && EqualsClause(s, k).value.end == (if semi then e else OptSemicolon(s, e))
  {
    EqualsClauseParts(s, k, quote, spec, spaced, semi, e);
    var c := k + 1 + |Optional(spaced, " ")|;
    RequireCallRecognized(s, c, quote, spec, semi, e);
    if !spaced {
      CallParts(s, c, quote, spec, semi, e);
      assert s[k + 1] == s[c..c + 8][0];
    }
  }

  /** Where `import` is followed, on the same line, by a position where the `from` clause matches, the import alternative matches. */
  lemma ImportAtComplete(s: string, p: nat, j: nat)
    requires p + 6 <= j <= |s| && Spells(s, p, p + 6, "import") && OnOneLine(s, p + 6, j) && FromClause(s, j).Some?
    ensures ImportAt(s, p).Some?
  {
    assert ClauseAt(FromPart, s, j).Some?;
  }

  /** Where a keyword is followed by at least one character and then, on the same line, an `=` clause, the keyword's branch matches. */
  lemma KeywordAtComplete(s: string, p: nat, kw: string, j: nat)
    requires p + |kw| < j <= |s| && Spells(s, p, p + |kw|, kw) && OnOneLine(s, p + |kw|, j) && EqualsClause(s, j).Some?
    ensures KeywordAt(s, p, kw).Some?
  {
    assert s[p + |kw|] == s[p + |kw|..j][0];
    NoLineTerminatorShift(s, p + |kw|);
    assert ClauseAt(EqualsPart, s, j).Some?;
  }

  /** A text `x + g + y` at `p`, piece by piece. */
  lemma StatementParts(s: string, p: nat, e: nat, x: string, g: string, y: string)
    requires Spells(s, p, e, x + g + y)
    ensures Spells(s, p, p + |x|, x) && Spells(s, p + |x|, p + |x| + |g|, g) && Spells(s, p + |x| + |g|, e, y)
  {
    assert x + g + y == x + (g + y);
    SplitAt(s, p, x, g + y);
    SplitAt(s, p + |x|, g, y);
  }

  /**
   * An import statement at `p` (`import`, bindings on one line, and a
   * `from` clause in any of its four forms) is matched at `p`.
   */
  lemma ImportStatementMatched(s: string, p: nat, g1: string, quote: char, spec: string, spaced: bool, semi: bool, e: nat)
    requires NoLineTerminator(g1) && GoodSpec(spec, quote)
    requires Spells(s, p, e, "import" + g1 + FromText(quote, spec, spaced, semi))
    ensures MatchAt(s, p).Some?
  {
    StatementParts(s, p, e, "import", g1, FromText(quote, spec, spaced, semi));
    FromClauseRecognized(s, p + 6 + |g1|, quote, spec, spaced, semi, e);
    ImportAtComplete(s, p, p + 6 + |g1|);
  }

  /**
   * A require statement at `p` (one of the three keywords, at least one
   * character on one line, and an `=` clause in any of its four forms) is
   * matched at `p`.
   */
  lemma RequireStatementMatched(s: string, p: nat, kw: string, g: string, quote: char, spec: string, spaced: bool, semi: bool, e: nat)
    requires kw in ["const", "let", "var"] && g != [] && NoLineTerminator(g) && GoodSpec(spec, quote)
    requires Spells(s, p, e, kw + g + CallText(quote, spec, spaced, semi))
    ensures MatchAt(s, p).Some?
  {
    StatementParts(s, p, e, kw, g, CallText(quote, spec, spaced, semi));
    EqualsClauseRecognized(s, p + |kw| + |g|, quote, spec, spaced, semi, e);
    KeywordAtComplete(s, p, kw, p + |kw| + |g|);
    RequireAtComplete(s, p, kw);
  }

  /** When one keyword's branch matches, the require alternative matches (perhaps by an earlier keyword). */
  lemma RequireAtComplete(s: string, p: nat, kw: string)
    requires p <= |s| && kw in ["const", "let", "var"] && KeywordAt(s, p, kw).Some?
    ensures RequireAt(s, p).Some? && MatchAt(s, p).Some?
  {
  }

  /** `exec` from `from` finds a match no later than any position where the pattern matches. */
  lemma FindMatchComplete(s: string, from: nat, p: nat)
    requires from <= p <= |s| && MatchAt(s, p).Some?
    ensures FindMatch(s, from).Some? && FindMatch(s, from).value.start <= p
  {
    FindMatchLeftmost(s, from);
  }
}
