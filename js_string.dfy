/**
 * The JavaScript string built-ins that the transform relies on, with the
 * semantics of ECMAScript: `String.prototype.trim`, `indexOf` and
 * `replace` called with a string pattern (first occurrence only, with the
 * `$` patterns of the replacement expanded).
 */
module JsString {
  import opened Wrappers

  /** JavaScript's line terminators: LF, CR, LINE SEPARATOR, PARAGRAPH SEPARATOR. */
  predicate IsLineTerminator(c: char) {
    c == '\n' || c == '\r' || c == '\U{2028}' || c == '\U{2029}'
  }

  /** The characters `trim` strips: WhiteSpace (including the Unicode Zs category) and LineTerminator. */
  predicate IsTrimmable(c: char) {
    || c == '\t' || c == '\U{B}' || c == '\U{C}' || c == ' ' || c == '\U{A0}' || c == '\U{FEFF}'
    || c == '\U{1680}' || ('\U{2000}' <= c <= '\U{200A}') || c == '\U{202F}' || c == '\U{205F}' || c == '\U{3000}'
    || IsLineTerminator(c)
  }

  predicate AllTrimmable(s: string) {
    forall i :: 0 <= i < |s| ==> IsTrimmable(s[i])
  }

  /** `s` with its leading white space removed. */
  function TrimStart(s: string): string
  {
    if s == [] || !IsTrimmable(s[0]) then s else TrimStart(s[1..])
  }

  /** `TrimStart` cuts off a prefix of white space and stops at the first other character. */
  lemma {:induction false} TrimStartSlice(s: string)
    ensures |TrimStart(s)| <= |s| && TrimStart(s) == s[|s| - |TrimStart(s)|..]
    ensures AllTrimmable(s[..|s| - |TrimStart(s)|])
    ensures TrimStart(s) == [] || !IsTrimmable(TrimStart(s)[0])
  {
    if s != [] && IsTrimmable(s[0]) {
      var t := s[1..];
      TrimStartSlice(t);
      var n := |s| - |TrimStart(t)|;
      assert t[n - 1..] == s[n..];
      forall k | 0 <= k < n ensures IsTrimmable(s[..n][k]) {
        if k > 0 { assert s[..n][k] == t[..n - 1][k - 1]; }
      }
    }
  }

  /** `s` with its trailing white space removed. */
  function TrimEnd(s: string): string
  {
    if s == [] || !IsTrimmable(s[|s| - 1]) then s else TrimEnd(s[..|s| - 1])
  }

  /** `TrimEnd` cuts off a suffix of white space and stops at the last other character. */
  lemma {:induction false} TrimEndSlice(s: string)
    ensures |TrimEnd(s)| <= |s| && TrimEnd(s) == s[..|TrimEnd(s)|]
    ensures AllTrimmable(s[|TrimEnd(s)|..])
    ensures TrimEnd(s) == [] || !IsTrimmable(TrimEnd(s)[|TrimEnd(s)| - 1])
  {
    if s != [] && IsTrimmable(s[|s| - 1]) {
      var t := s[..|s| - 1];
      TrimEndSlice(t);
      var n := |TrimEnd(t)|;
      assert t[..n] == s[..n];
      forall k | 0 <= k < |s| - n ensures IsTrimmable(s[n..][k]) {
        if k < |s| - 1 - n { assert s[n..][k] == t[n..][k]; } else { assert s[n..][k] == s[|s| - 1]; }
      }
    }
  }

  /** `String.prototype.trim`. */
  function Trim(s: string): string {
    TrimEnd(TrimStart(s))
  }

  /** `trim` yields a slice of its input with only white space cut off either side, and no white space at either end. */
  lemma TrimIsSlice(s: string)
    ensures exists i, j :: (0 <= i <= j <= |s| && Trim(s) == s[i..j]
                            && AllTrimmable(s[..i]) && AllTrimmable(s[j..]))
    ensures Trim(s) == [] || (!IsTrimmable(Trim(s)[0]) && !IsTrimmable(Trim(s)[|Trim(s)| - 1]))
  {
    var t := TrimStart(s);
    TrimStartSlice(s);
    TrimEndSlice(t);
    var i := |s| - |t|;
    var j := i + |TrimEnd(t)|;
    assert Trim(s) == s[i..j];
    assert s[j..] == t[|TrimEnd(t)|..];
    if TrimEnd(t) != [] {
      assert TrimEnd(t)[0] == t[0];
    }
  }

  /** A string that neither starts nor ends with white space is its own trim. */
  lemma TrimOfTrimmed(s: string)
    requires s == [] || (!IsTrimmable(s[0]) && !IsTrimmable(s[|s| - 1]))
    ensures Trim(s) == s
  {
  }

  /** Trimming is idempotent. */
  lemma TrimIdempotent(s: string)
    ensures Trim(Trim(s)) == Trim(s)
  {
    TrimIsSlice(s);
    TrimOfTrimmed(Trim(s));
  }

  lemma {:induction false} TrimStartAppend(s: string, t: string)
    requires !AllTrimmable(s)
    ensures TrimStart(s + t) == TrimStart(s) + t
  {
    if IsTrimmable(s[0]) {
      assert (s + t)[1..] == s[1..] + t;
      TrimStartAppend(s[1..], t);
    }
  }

  lemma {:induction false} TrimStartAllTrimmable(s: string, t: string)
    requires AllTrimmable(s)
    ensures TrimStart(s + t) == TrimStart(t)
  {
    if s != [] {
      assert (s + t)[1..] == s[1..] + t;
      TrimStartAllTrimmable(s[1..], t);
    } else {
      assert s + t == t;
    }
  }

  lemma {:induction false} TrimEndTrailingSpace(s: string)
    ensures TrimEnd(s + " ") == TrimEnd(s)
  {
    assert (s + " ")[..|s|] == s;
  }

  /** One space either side makes no difference to the trim, whatever `s` is. */
  lemma PaddedTrim(s: string)
    ensures Trim(" " + s + " ") == Trim(s)
  {
    assert (" " + s + " ")[1..] == s + " ";
    if AllTrimmable(s) {
      TrimStartAllTrimmable(s, " ");
      TrimStartAllTrimmable(s, "");
      assert s + "" == s;
    } else {
      TrimStartAppend(s, " ");
      TrimEndTrailingSpace(TrimStart(s));
    }
  }

  /** `pat` occurs in `s` at index `i`. */
  predicate OccursAt(s: string, pat: string, i: nat) {
    i + |pat| <= |s| && s[i..i + |pat|] == pat
  }

  /** `s.indexOf(pat, from)`: the first index at or after `from` where `pat` occurs, if any. */
  function IndexOfFrom(s: string, pat: string, from: nat): (r: Option<nat>)
    requires from <= |s|
    ensures r.Some? ==> from <= r.value && OccursAt(s, pat, r.value)
    ensures r.Some? ==> forall j :: from <= j < r.value ==> !OccursAt(s, pat, j)
    ensures r.None? ==> forall j :: from <= j <= |s| ==> !OccursAt(s, pat, j)
    decreases |s| - from
  {
    if OccursAt(s, pat, from) then Some(from)
    else if from == |s| then None
    else IndexOfFrom(s, pat, from + 1)
  }

  function IndexOf(s: string, pat: string): Option<nat> {
    IndexOfFrom(s, pat, 0)
  }

  /**
   * The replacement text that `GetSubstitution` of ECMAScript builds for a
   * string search (no capture groups): `$$` gives `$`, `$&` the matched
   * text, `` $` `` the text before the match, `$'` the text after it, and
   * every other `$` stays as written.
   */
  function Expand(rep: string, matched: string, before: string, after: string): string
    decreases |rep|
  {
    if rep == [] then []
    else if rep[0] == '$' && |rep| >= 2 && rep[1] == '$' then "$" + Expand(rep[2..], matched, before, after)
    else if rep[0] == '$' && |rep| >= 2 && rep[1] == '&' then matched + Expand(rep[2..], matched, before, after)
    else if rep[0] == '$' && |rep| >= 2 && rep[1] == '`' then before + Expand(rep[2..], matched, before, after)
    else if rep[0] == '$' && |rep| >= 2 && rep[1] == '\'' then after + Expand(rep[2..], matched, before, after)
    else [rep[0]] + Expand(rep[1..], matched, before, after)
  }

  /** A replacement without `$` is inserted literally. */
  lemma {:induction false} ExpandLiteral(rep: string, matched: string, before: string, after: string)
    requires '$' !in rep
    ensures Expand(rep, matched, before, after) == rep
  {
    if rep != [] {
      assert rep[0] != '$';
      assert '$' !in rep[1..] by { assert forall k :: 0 <= k < |rep| - 1 ==> rep[1..][k] == rep[k + 1]; }
      ExpandLiteral(rep[1..], matched, before, after);
    }
  }

  /** Text free of `$` passes through `Expand` unchanged in front of whatever follows it. */
  lemma {:induction false} ExpandPrefix(lit: string, rest: string, matched: string, before: string, after: string)
    requires '$' !in lit
    ensures Expand(lit + rest, matched, before, after) == lit + Expand(rest, matched, before, after)
  {
    if lit != [] {
      assert lit[0] != '$';
      assert (lit + rest)[0] == lit[0];
      assert (lit + rest)[1..] == lit[1..] + rest;
      assert '$' !in lit[1..] by { assert forall k :: 0 <= k < |lit| - 1 ==> lit[1..][k] == lit[k + 1]; }
      ExpandPrefix(lit[1..], rest, matched, before, after);
    } else {
      assert lit + rest == rest;
    }
  }

  /**
   * `s.replace(pat, rep)` with a string `pat`: only the FIRST occurrence of
   * `pat` is replaced, by `rep` with its `$` patterns expanded; when `pat`
   * does not occur, `s` is returned unchanged.
   */
  function ReplaceFirst(s: string, pat: string, rep: string): (r: string)
    ensures IndexOf(s, pat).None? ==> r == s
    ensures IndexOf(s, pat).Some? ==>
      var i := IndexOf(s, pat).value;
      r == s[..i] + Expand(rep, pat, s[..i], s[i + |pat|..]) + s[i + |pat|..]
  {
    match IndexOf(s, pat)
    case None => s
    case Some(i) => s[..i] + Expand(rep, pat, s[..i], s[i + |pat|..]) + s[i + |pat|..]
  }

  /** When `pat` first occurs at `i`, `replace` substitutes exactly there and leaves both sides alone. */
  lemma ReplaceFirstAt(s: string, pat: string, rep: string, i: nat)
    requires OccursAt(s, pat, i)
    requires forall j :: 0 <= j < i ==> !OccursAt(s, pat, j)
    requires '$' !in rep
    ensures ReplaceFirst(s, pat, rep) == s[..i] + rep + s[i + |pat|..]
  {
    assert IndexOf(s, pat) == Some(i);
    ExpandLiteral(rep, pat, s[..i], s[i + |pat|..]);
  }
}
