/**
 * The global regular expression of the transform (src/index.ts:59),
 * written out as an explicit backtracking scanner.  It has two
 * alternatives.  The import alternative is the word `import`, a lazy
 * capture of any characters on the line, the word `from`, an optional
 * space, a specifier in double or single quotes (each captured in its own
 * group) and an optional semicolon.  The require alternative is one of the
 * keywords `const`, `let` or `var` (captured), a lazy run of at least one
 * character on the line (not captured), `=`, an optional space, `require(`,
 * a quoted specifier as before, `)` and an optional semicolon.
 *
 * At each start position the first alternative is tried before the second,
 * the lazy parts grow one character at a time (and never over a line
 * terminator), a quoted specifier runs up to the next quote of its kind
 * (over line terminators too), the optional space and semicolon are taken
 * whenever the rest still matches.  `exec` returns the match at the
 * leftmost start position where one exists.
 */
module Pattern {
  import opened Wrappers
  import opened JsString

  /**
   * One result of `regex.exec`: where it starts and ends, `match[0]`, and
   * the capture groups 1 to 6 (`groups[i - 1]` is group `i`; `None` is
   * `undefined`).
   */
  datatype RegexMatch = RegexMatch(start: nat, end: nat, text: string, groups: seq<Option<string>>)
  {
    /** `match[i]` in JavaScript: there is no group 7, so indexing past group 6 yields `undefined`. */
    function At(i: nat): Option<string> {
      if i == 0 then Some(text) else if i - 1 < |groups| then groups[i - 1] else None
    }
  }

  /** What follows the lazy part of an alternative: the quoted specifier, its quote, whether the optional space and `;` were taken, and where the match ends. */
  datatype Tail = Tail(spec: string, quote: char, spaced: bool, semi: bool, end: nat)

  /** A quoted specifier `"spec"` or `'spec'` and the index after its closing quote. */
  datatype Quoted = Quoted(spec: string, quote: char, after: nat)

  /** The double quote, written by its code point. */
  const DoubleQuote: char := '\U{22}'

  predicate IsQuote(c: char) {
    c == DoubleQuote || c == '\''
  }

  predicate NoLineTerminator(s: string) {
    forall i :: 0 <= i < |s| ==> !IsLineTerminator(s[i])
  }

  /** `s[i..j]` lies within `s` and is the text `w`. */
  predicate Spells(s: string, i: nat, j: nat, w: string) {
    i <= j <= |s| && s[i..j] == w
  }

  /** `s[i..j]` lies within `s` and holds no `c`. */
  predicate Avoids(s: string, i: nat, j: nat, c: char) {
    i <= j <= |s| && c !in s[i..j]
  }

  /** `s[i..j]` lies within `s` and crosses no line terminator. */
  predicate OnOneLine(s: string, i: nat, j: nat) {
    i <= j <= |s| && NoLineTerminator(s[i..j])
  }

  /** A well-formed captured specifier: one or more characters, none of them the quote that closes it. */
  predicate GoodSpec(spec: string, quote: char) {
    IsQuote(quote) && spec != [] && quote !in spec
  }

  /** The first index at or after `from` that holds `c`. */
  function NextChar(s: string, c: char, from: nat): (r: Option<nat>)
    requires from <= |s|
    ensures r.Some? ==> from <= r.value < |s| && s[r.value] == c
    ensures r.Some? ==> Avoids(s, from, r.value, c)
    ensures r.None? ==> Avoids(s, from, |s|, c)
    decreases |s| - from
  {
    if from == |s| then None
    else if s[from] == c then Some(from)
    else
      var rest := NextChar(s, c, from + 1);
      assert rest.Some? ==> s[from..rest.value] == [s[from]] + s[from + 1..rest.value];
      assert s[from..] == [s[from]] + s[from + 1..];
      rest
  }

  /** `c([^c]+)c` tried at `q`, for `c` one of the two quotes. */
  function QuotedWith(s: string, q: nat, c: char): (r: Option<Quoted>)
    requires q <= |s| && IsQuote(c)
    ensures r.Some? ==> r.value.quote == c && GoodSpec(r.value.spec, c)
    ensures r.Some? ==> r.value.after == q + |r.value.spec| + 2 <= |s|
    ensures r.Some? ==> Spells(s, q, r.value.after, [c] + r.value.spec + [c])
    ensures r.None? <==> !(q < |s| && s[q] == c && NextChar(s, c, q + 1).Some? && NextChar(s, c, q + 1).value > q + 1)
  {
    if q < |s| && s[q] == c then
      match NextChar(s, c, q + 1)
      case Some(j) =>
        if j > q + 1 then
          assert s[q..j + 1] == [c] + s[q + 1..j] + [c];
          Some(Quoted(s[q + 1..j], c, j + 1))
        else None
      case None => None
    else None
  }

  /** `(?:"([^"]+)")|(?:'([^']+)')` tried at `q`: double quotes first. */
  function QuotedAt(s: string, q: nat): (r: Option<Quoted>)
    requires q <= |s|
    ensures r.Some? ==> q < |s| && s[q] == r.value.quote
    ensures r.Some? ==> GoodSpec(r.value.spec, r.value.quote)
    ensures r.Some? ==> r.value.after == q + |r.value.spec| + 2 <= |s|
    ensures r.Some? ==> Spells(s, q, r.value.after, QuotedText(r.value.quote, r.value.spec))
    ensures r.None? <==> QuotedWith(s, q, DoubleQuote).None? && QuotedWith(s, q, '\'').None?
  {
    match QuotedWith(s, q, DoubleQuote)
    case Some(d) => Some(d)
    case None => QuotedWith(s, q, '\'')
  }

  /** The greedy `;?`. */
  function OptSemicolon(s: string, i: nat): (r: nat)
    requires i <= |s|
    ensures r <= |s|
    ensures r == i || (r == i + 1 && s[i] == ';')
    ensures r == i ==> i == |s| || s[i] != ';'
  {
    if i < |s| && s[i] == ';' then i + 1 else i
  }

  /** `"spec"` or `'spec'`. */
  function QuotedText(quote: char, spec: string): string {
    [quote] + spec + [quote]
  }

  function Optional(taken: bool, c: string): string {
    if taken then c else ""
  }

  /** The text that `from ?"spec";?` stands for, with the choices the greedy parts made. */
  function FromText(quote: char, spec: string, spaced: bool, semi: bool): string {
    "from" + Optional(spaced, " ") + QuotedText(quote, spec) + Optional(semi, ";")
  }

  /** The text that `= ?require("spec");?` stands for. */
  function CallText(quote: char, spec: string, spaced: bool, semi: bool): string {
    "=" + Optional(spaced, " ") + RequireCallText(quote, spec, semi)
  }

  /** The text that `require("spec");?` stands for. */
  function RequireCallText(quote: char, spec: string, semi: bool): string {
    "require(" + QuotedText(quote, spec) + ")" + Optional(semi, ";")
  }

  /** Adjacent slices join up. */
  lemma SliceJoin(s: string, a: nat, b: nat, c: nat)
    requires a <= b <= c <= |s|
    ensures s[a..c] == s[a..b] + s[b..c]
  {
  }

  /** The greedy `;?` took `s[i..OptSemicolon(s, i)]`. */
  lemma SemicolonSlice(s: string, i: nat)
    requires i <= |s|
    ensures s[i..OptSemicolon(s, i)] == Optional(OptSemicolon(s, i) > i, ";")
  {
    if OptSemicolon(s, i) > i {
      assert s[i..i + 1] == [s[i]];
    }
  }

  /** A word followed by the space the greedy ` ?` took. */
  lemma WordSpaceSlice(s: string, k: nat, w: string, spaced: bool, q: nat)
    requires k + |w| <= |s| && s[k..k + |w|] == w
    requires q == (if spaced then k + |w| + 1 else k + |w|) && q <= |s|
    requires spaced ==> s[k + |w|] == ' '
    ensures s[k..q] == w + Optional(spaced, " ")
  {
    if spaced {
      SliceJoin(s, k, k + |w|, q);
      assert s[k + |w|..q] == [s[k + |w|]];
    }
  }

  /** `from ?(?:"..."|'...');?` tried at `k`: with the space when there is one and the rest then matches, otherwise without. */
  function FromClause(s: string, k: nat): (r: Option<Tail>)
    requires k <= |s|
    ensures r.Some? ==> k < r.value.end <= |s| && GoodSpec(r.value.spec, r.value.quote)
    ensures r.Some? ==> Spells(s, k, r.value.end, FromText(r.value.quote, r.value.spec, r.value.spaced, r.value.semi))
    ensures r.Some? ==> (!r.value.spaced && IsQuote(s[k + 4])) || (r.value.spaced && s[k + 4] == ' ' && IsQuote(s[k + 5]))
    ensures r.None? <==> !(k + 4 <= |s| && s[k..k + 4] == "from" && (QuotedAt(s, k + 4).Some? || (k + 4 < |s| && s[k + 4] == ' ' && QuotedAt(s, k + 5).Some?)))
  {
    if k + 4 <= |s| && s[k..k + 4] == "from" then
      var spaced := k + 4 < |s| && s[k + 4] == ' ' && QuotedAt(s, k + 5).Some?;
      var q := if spaced then k + 5 else k + 4;
      match QuotedAt(s, q)
      case None => None
      case Some(x) =>
        var e := OptSemicolon(s, x.after);
        SliceJoin(s, k, q, x.after);
        SliceJoin(s, k, x.after, e);
        WordSpaceSlice(s, k, "from", spaced, q);
        SemicolonSlice(s, x.after);
        Some(Tail(x.spec, x.quote, spaced, e > x.after, e))
    else None
  }

  /** `require\((?:"..."|'...')\);?` tried at `r`. */
  function RequireCall(s: string, r: nat): (t: Option<Tail>)
    requires r <= |s|
    ensures t.Some? ==> r < t.value.end <= |s| && GoodSpec(t.value.spec, t.value.quote)
    ensures t.Some? ==> Spells(s, r, t.value.end, RequireCallText(t.value.quote, t.value.spec, t.value.semi))
    ensures t.Some? ==> s[r + 2] == 'q'
    ensures t.None? <==> !(r + 8 <= |s| && s[r..r + 8] == "require(" && QuotedAt(s, r + 8).Some? && QuotedAt(s, r + 8).value.after < |s| && s[QuotedAt(s, r + 8).value.after] == ')')
  {
    if r + 8 <= |s| && s[r..r + 8] == "require(" then
      match QuotedAt(s, r + 8)
      case None => None
      case Some(x) =>
        if x.after < |s| && s[x.after] == ')' then
          var e := OptSemicolon(s, x.after + 1);
          RequireCallSlices(s, r, x, e);
          Some(Tail(x.spec, x.quote, false, e > x.after + 1, e))
        else None
    else None
  }

  /** The pieces `require(`, the quoted specifier, `)` and the optional `;` join up to the call's text. */
  lemma RequireCallSlices(s: string, r: nat, x: Quoted, e: nat)
    requires r + 8 <= |s| && s[r..r + 8] == "require("
    requires Spells(s, r + 8, x.after, QuotedText(x.quote, x.spec))
    requires x.after < |s| && s[x.after] == ')' && e == OptSemicolon(s, x.after + 1)
    ensures Spells(s, r, e, RequireCallText(x.quote, x.spec, e > x.after + 1))
    ensures s[r + 2] == 'q'
  {
    SliceJoin(s, r, r + 8, x.after);
    SliceJoin(s, r, x.after, x.after + 1);
    SliceJoin(s, r, x.after + 1, e);
    assert s[x.after..x.after + 1] == [s[x.after]];
    SemicolonSlice(s, x.after + 1);
    assert s[r + 2] == s[r..r + 8][2];
  }

  /** `= ?require(...);?` tried at `k`: with the space when there is one and the rest then matches, otherwise without. */
  function EqualsClause(s: string, k: nat): (r: Option<Tail>)
    requires k <= |s|
    ensures r.Some? ==> k < r.value.end <= |s| && GoodSpec(r.value.spec, r.value.quote)
    ensures r.Some? ==> Spells(s, k, r.value.end, CallText(r.value.quote, r.value.spec, r.value.spaced, r.value.semi))
    ensures r.Some? ==> s[k] == '='
    ensures r.None? <==> !(k < |s| && s[k] == '=' && (RequireCall(s, k + 1).Some? || (k + 1 < |s| && s[k + 1] == ' ' && RequireCall(s, k + 2).Some?)))
  {
    if k < |s| && s[k] == '=' then
      var spaced := k + 1 < |s| && s[k + 1] == ' ' && RequireCall(s, k + 2).Some?;
      var c := if spaced then k + 2 else k + 1;
      match RequireCall(s, c)
      case None => None
      case Some(x) =>
        SliceJoin(s, k, c, x.end);
        WordSpaceSlice(s, k, "=", spaced, c);
        Some(x.(spaced := spaced))
    else None
  }

  /** The two continuations that follow a lazy part of the pattern. */
  datatype Clause = FromPart | EqualsPart

  function ClauseAt(c: Clause, s: string, k: nat): (r: Option<Tail>)
    requires k <= |s|
    ensures r.Some? ==> k < r.value.end <= |s|
  {
    match c
    case FromPart => FromClause(s, k)
    case EqualsPart => EqualsClause(s, k)
  }

  lemma NoLineTerminatorCons(s: string, k: nat, j: nat)
    requires k < j <= |s| && !IsLineTerminator(s[k]) && NoLineTerminator(s[k + 1..j])
    ensures NoLineTerminator(s[k..j])
  {
    assert s[k..j] == [s[k]] + s[k + 1..j];
  }

  lemma NoLineTerminatorShift(s: string, k: nat)
    requires k < |s| && !IsLineTerminator(s[k])
    ensures forall j :: k < j <= |s| ==> (OnOneLine(s, k, j) <==> OnOneLine(s, k + 1, j))
  {
    forall j | k < j <= |s| ensures OnOneLine(s, k, j) <==> OnOneLine(s, k + 1, j) {
      assert s[k..j] == [s[k]] + s[k + 1..j];
    }
  }

  /**
   * A lazy `.*?` that has taken `s[start..k]`: the first `j >= k` where the
   * continuation `c` matches, growing one character at a time and never
   * over a line terminator.
   */
  function LazyEnd(c: Clause, s: string, k: nat): (r: Option<nat>)
    requires k <= |s|
    ensures r.Some? ==> k <= r.value < |s| && ClauseAt(c, s, r.value).Some? && OnOneLine(s, k, r.value)
    ensures r.Some? ==> forall j :: k <= j < r.value ==> ClauseAt(c, s, j).None?
    ensures r.None? ==> forall j :: k <= j <= |s| && OnOneLine(s, k, j) ==> ClauseAt(c, s, j).None?
    decreases |s| - k
  {
    if ClauseAt(c, s, k).Some? then
      assert OnOneLine(s, k, k);
      Some(k)
    else if k < |s| && !IsLineTerminator(s[k]) then
      LazyEndShift(c, s, k, LazyEnd(c, s, k + 1));
      LazyEnd(c, s, k + 1)
    else
      assert forall j :: k < j <= |s| ==> !OnOneLine(s, k, j) by {
        forall j | k < j <= |s| ensures !OnOneLine(s, k, j) { assert s[k..j][0] == s[k]; }
      }
      None
  }

  /** Where the continuation fails at `k` and `s[k]` continues the line, what holds of the lazy part's outcome `r` from `k + 1` holds from `k` as well. */
  lemma LazyEndShift(c: Clause, s: string, k: nat, r: Option<nat>)
    requires k < |s| && ClauseAt(c, s, k).None? && !IsLineTerminator(s[k])
    requires r.Some? ==> k + 1 <= r.value < |s| && OnOneLine(s, k + 1, r.value)
    requires r.Some? ==> forall j :: k + 1 <= j < r.value ==> ClauseAt(c, s, j).None?
    requires r.None? ==> forall j :: k + 1 <= j <= |s| && OnOneLine(s, k + 1, j) ==> ClauseAt(c, s, j).None?
    ensures r.Some? ==> OnOneLine(s, k, r.value) && forall j :: k <= j < r.value ==> ClauseAt(c, s, j).None?
    ensures r.None? ==> forall j :: k <= j <= |s| && OnOneLine(s, k, j) ==> ClauseAt(c, s, j).None?
  {
    NoLineTerminatorShift(s, k);
  }

  /** `m` starts at `p`, ends within `s`, and its text is what it spans. */
  predicate MatchedFrom(s: string, p: nat, m: RegexMatch) {
    m.start == p < m.end <= |s| && m.text == s[p..m.end]
  }

  /** Groups 2 and 3 (or 5 and 6): the specifier lands in the group of the quote that delimits it. */
  function QuoteGroups(t: Tail): seq<Option<string>> {
    [if t.quote == DoubleQuote then Some(t.spec) else None, if t.quote == '\'' then Some(t.spec) else None]
  }

  /** The match the import alternative builds when `from ...` follows at `j`. */
  function ImportMatch(s: string, p: nat, j: nat, t: Tail): RegexMatch
    requires p + 6 <= j < t.end <= |s|
  {
    RegexMatch(p, t.end, s[p..t.end], [Some(s[p + 6..j])] + QuoteGroups(t) + [None, None, None])
  }

  /** The first alternative at `p`: `import`, the lazy `(.*?)`, then `from ...`. */
  function ImportAt(s: string, p: nat): (r: Option<RegexMatch>)
    requires p <= |s|
    ensures r.Some? ==> MatchedFrom(s, p, r.value)
  {
    if p + 6 <= |s| && s[p..p + 6] == "import" then
      match LazyEnd(FromPart, s, p + 6)
      case Some(j) => Some(ImportMatch(s, p, j, FromClause(s, j).value))
      case None => None
    else None
  }

  /** The match the require alternative builds when `= require(...)` follows at `j`. */
  function RequireMatch(s: string, p: nat, kw: string, j: nat, t: Tail): RegexMatch
    requires p + |kw| < j < t.end <= |s|
  {
    RegexMatch(p, t.end, s[p..t.end], [None, None, None, Some(kw)] + QuoteGroups(t))
  }

  /** One branch of `(const|let|var)` at `p`, then `.+?` (at least one character) and `= require(...)`. */
  function KeywordAt(s: string, p: nat, kw: string): (r: Option<RegexMatch>)
    requires p <= |s|
    ensures r.Some? ==> MatchedFrom(s, p, r.value)
    ensures r.Some? ==> p + |kw| < |s| && s[p..p + |kw|] == kw
  {
    if p + |kw| < |s| && s[p..p + |kw|] == kw && !IsLineTerminator(s[p + |kw|]) then
      match LazyEnd(EqualsPart, s, p + |kw| + 1)
      case Some(j) => Some(RequireMatch(s, p, kw, j, EqualsClause(s, j).value))
      case None => None
    else None
  }

  /** The second alternative at `p`: the keywords in the order the pattern lists them. */
  function RequireAt(s: string, p: nat): (r: Option<RegexMatch>)
    requires p <= |s|
    ensures r.Some? ==> MatchedFrom(s, p, r.value)
  {
    match KeywordAt(s, p, "const")
    case Some(m) => Some(m)
    case None =>
      match KeywordAt(s, p, "let")
      case Some(m) => Some(m)
      case None => KeywordAt(s, p, "var")
  }

  /** One match attempt at `p`: the import alternative first, the require alternative only if it fails. */
  function MatchAt(s: string, p: nat): (r: Option<RegexMatch>)
    requires p <= |s|
    ensures r.Some? ==> MatchedFrom(s, p, r.value)
  {
    match ImportAt(s, p)
    case Some(m) => Some(m)
    case None => RequireAt(s, p)
  }

  /** `regex.exec(s)` with `lastIndex == from`: the match at the leftmost position at or after `from`, if any. */
  function FindMatch(s: string, from: nat): (r: Option<RegexMatch>)
    requires from <= |s|
    ensures r.Some? ==> from <= r.value.start && MatchedFrom(s, r.value.start, r.value)
    decreases |s| - from
  {
    match MatchAt(s, from)
    case Some(m) => Some(m)
    case None => if from == |s| then None else FindMatch(s, from + 1)
  }

  /** `exec` reports the match that the pattern makes at the leftmost position where it matches at all, and none when it matches nowhere. */
  lemma {:induction false} FindMatchLeftmost(s: string, from: nat)
    requires from <= |s|
    ensures FindMatch(s, from).Some? ==> MatchAt(s, FindMatch(s, from).value.start) == FindMatch(s, from)
    ensures FindMatch(s, from).Some? ==> forall p :: from <= p < FindMatch(s, from).value.start ==> MatchAt(s, p).None?
    ensures FindMatch(s, from).None? ==> forall p :: from <= p <= |s| ==> MatchAt(s, p).None?
    decreases |s| - from
  {
    var here := MatchAt(s, from);
    if here.None? && from < |s| {
      var r := FindMatch(s, from + 1);
      assert FindMatch(s, from) == r;
      FindMatchLeftmost(s, from + 1);
      if r.Some? {
        forall p | from <= p < r.value.start ensures MatchAt(s, p).None? {
          if p > from { assert from + 1 <= p; }
        }
      } else {
        forall p | from <= p <= |s| ensures MatchAt(s, p).None? {
          if p > from { assert from + 1 <= p; }
        }
      }
    }
  }

  // ---------------------------------------------------------------------
  // What a match looks like

  /** The binding clause and specifier of an import-form match, as the match text shows them. */
  ghost predicate ImportText(t: string, g1: string, quote: char, spec: string) {
    || t == "import" + g1 + FromText(quote, spec, false, false)
    || t == "import" + g1 + FromText(quote, spec, false, true)
    || t == "import" + g1 + FromText(quote, spec, true, false)
    || t == "import" + g1 + FromText(quote, spec, true, true)
  }

  /** `t` is keyword `kw`, then one or more characters on one line, then the call `c`. */
  ghost predicate KeywordThenCall(t: string, kw: string, c: string) {
    |kw| < |t| - |c| && t == kw + t[|kw|..|t| - |c|] + c && NoLineTerminator(t[|kw|..|t| - |c|])
  }

  ghost predicate RequireText(t: string, kw: string, quote: char, spec: string) {
    || KeywordThenCall(t, kw, CallText(quote, spec, false, false))
    || KeywordThenCall(t, kw, CallText(quote, spec, false, true))
    || KeywordThenCall(t, kw, CallText(quote, spec, true, false))
    || KeywordThenCall(t, kw, CallText(quote, spec, true, true))
  }

  /** An import-form match: groups 1 and (2 or 3) are set, 4 to 6 are not. */
  ghost predicate ImportForm(m: RegexMatch) {
    && |m.groups| == 6 && m.groups[0].Some? && NoLineTerminator(m.groups[0].value)
    && m.groups[3].None? && m.groups[4].None? && m.groups[5].None?
    && ((m.groups[1].Some? && m.groups[2].None? && GoodSpec(m.groups[1].value, DoubleQuote)
         && ImportText(m.text, m.groups[0].value, DoubleQuote, m.groups[1].value))
        || (m.groups[2].Some? && m.groups[1].None? && GoodSpec(m.groups[2].value, '\'')
         && ImportText(m.text, m.groups[0].value, '\'', m.groups[2].value)))
  }

  /** A require-form match: group 4 holds the keyword and (5 or 6) the specifier; 1 to 3 are not set. */
  ghost predicate RequireForm(m: RegexMatch) {
    && |m.groups| == 6 && m.groups[0].None? && m.groups[1].None? && m.groups[2].None?
    && m.groups[3].Some? && m.groups[3].value in ["const", "let", "var"]
    && ((m.groups[4].Some? && m.groups[5].None? && GoodSpec(m.groups[4].value, DoubleQuote)
         && RequireText(m.text, m.groups[3].value, DoubleQuote, m.groups[4].value))
        || (m.groups[5].Some? && m.groups[4].None? && GoodSpec(m.groups[5].value, '\'')
         && RequireText(m.text, m.groups[3].value, '\'', m.groups[5].value)))
  }

  /** What every match of the pattern in `s` satisfies. */
  ghost predicate ValidMatch(s: string, m: RegexMatch) {
    m.start < m.end <= |s| && m.text == s[m.start..m.end] && (ImportForm(m) || RequireForm(m))
  }

  lemma ImportMatchForm(s: string, p: nat, j: nat, t: Tail)
    requires p + 6 <= |s| && s[p..p + 6] == "import"
    requires p + 6 <= j < t.end <= |s| && NoLineTerminator(s[p + 6..j])
    requires GoodSpec(t.spec, t.quote) && s[j..t.end] == FromText(t.quote, t.spec, t.spaced, t.semi)
    ensures ValidMatch(s, ImportMatch(s, p, j, t)) && ImportForm(ImportMatch(s, p, j, t))
  {
    assert s[p..t.end] == s[p..p + 6] + s[p + 6..j] + s[j..t.end];
  }

  lemma RequireMatchForm(s: string, p: nat, kw: string, j: nat, t: Tail)
    requires kw in ["const", "let", "var"] && p + |kw| < j < t.end <= |s|
    requires s[p..p + |kw|] == kw && NoLineTerminator(s[p + |kw|..j])
    requires GoodSpec(t.spec, t.quote) && s[j..t.end] == CallText(t.quote, t.spec, t.spaced, t.semi)
    ensures ValidMatch(s, RequireMatch(s, p, kw, j, t)) && RequireForm(RequireMatch(s, p, kw, j, t))
  {
    var m := RequireMatch(s, p, kw, j, t);
    var c := CallText(t.quote, t.spec, t.spaced, t.semi);
    assert s[p..t.end] == s[p..p + |kw|] + s[p + |kw|..j] + s[j..t.end];
    assert m.text[|kw|..|m.text| - |c|] == s[p + |kw|..j];
    assert KeywordThenCall(m.text, kw, c);
  }

  lemma KeywordAtValid(s: string, p: nat, kw: string)
    requires p <= |s| && kw in ["const", "let", "var"] && KeywordAt(s, p, kw).Some?
    ensures ValidMatch(s, KeywordAt(s, p, kw).value) && RequireForm(KeywordAt(s, p, kw).value)
  {
    var j := LazyEnd(EqualsPart, s, p + |kw| + 1).value;
    var t := EqualsClause(s, j).value;
    assert KeywordAt(s, p, kw) == Some(RequireMatch(s, p, kw, j, t));
    NoLineTerminatorCons(s, p + |kw|, j);
    RequireMatchForm(s, p, kw, j, t);
  }

  /** Soundness of the scanner: every match it reports has one of the two shapes the pattern describes. */
  lemma MatchAtValid(s: string, p: nat)
    requires p <= |s| && MatchAt(s, p).Some?
    ensures ValidMatch(s, MatchAt(s, p).value)
  {
    if ImportAt(s, p).Some? {
      var j := LazyEnd(FromPart, s, p + 6).value;
      ImportMatchForm(s, p, j, FromClause(s, j).value);
    } else if KeywordAt(s, p, "const").Some? {
      KeywordAtValid(s, p, "const");
    } else if KeywordAt(s, p, "let").Some? {
      KeywordAtValid(s, p, "let");
    } else {
      KeywordAtValid(s, p, "var");
    }
  }

  /** The same for the leftmost match that `exec` returns. */
  lemma FindMatchValid(s: string, from: nat)
    requires from <= |s| && FindMatch(s, from).Some?
    ensures ValidMatch(s, FindMatch(s, from).value)
  {
    FindMatchLeftmost(s, from);
    MatchAtValid(s, FindMatch(s, from).value.start);
  }

  /**
   * The matches the `while ((match = regex.exec(inContent)))` loop sees,
   * starting with `lastIndex == from`: each search resumes where the
   * previous match ended, so the matches are non-empty, lie left to right
   * and never overlap.
   */
  function AllMatches(s: string, from: nat): (ms: seq<RegexMatch>)
    requires from <= |s|
    ensures forall i :: 0 <= i < |ms| ==> from <= ms[i].start < ms[i].end <= |s|
    ensures forall i, j :: 0 <= i < j < |ms| ==> ms[i].end <= ms[j].start
    decreases |s| - from
  {
    match FindMatch(s, from)
    case None => []
    case Some(m) =>
      var rest := AllMatches(s, m.end);
      ConsOrdered(m, rest, from, |s|);
      [m] + rest
  }

  /** A match in front of matches that start at or after its end keeps them in bounds and in order. */
  lemma ConsOrdered(m: RegexMatch, rest: seq<RegexMatch>, from: nat, n: nat)
    requires from <= m.start < m.end <= n
    requires forall i :: 0 <= i < |rest| ==> m.end <= rest[i].start < rest[i].end <= n
    requires forall i, j :: 0 <= i < j < |rest| ==> rest[i].end <= rest[j].start
    ensures forall i :: 0 <= i < |[m] + rest| ==> from <= ([m] + rest)[i].start < ([m] + rest)[i].end <= n
    ensures forall i, j :: 0 <= i < j < |[m] + rest| ==> ([m] + rest)[i].end <= ([m] + rest)[j].start
  {
    var ms := [m] + rest;
    assert forall i :: 1 <= i < |ms| ==> ms[i] == rest[i - 1];
  }

  /** Every match the loop sees has one of the two shapes of the pattern. */
  lemma {:induction false} AllMatchesValid(s: string, from: nat, i: nat)
    requires from <= |s| && i < |AllMatches(s, from)|
    ensures ValidMatch(s, AllMatches(s, from)[i])
    decreases |s| - from
  {
    var m := FindMatch(s, from).value;
    var rest := AllMatches(s, m.end);
    assert AllMatches(s, from) == [m] + rest;
    if i == 0 {
      FindMatchValid(s, from);
    } else {
      assert AllMatches(s, from)[i] == rest[i - 1];
      AllMatchesValid(s, m.end, i - 1);
    }
  }
}
