/** The selector rewrite of `_replaceFocusPseudoClass`: every match of the
    regular expression `/\s*:focus\b/gi` is replaced by `'[' + attr + ']'`.
    The one pattern is written out by hand: a run of whitespace, then
    `:focus` compared without regard to ASCII case, then a word boundary. */
module FocusSelector {
  import opened JsValues

  /** `\s`: ECMAScript's WhiteSpace and LineTerminator characters. */
  predicate IsWhitespace(c: char) {
    c == '\t' || c == '\n' || c == '\U{B}' || c == '\U{C}' || c == '\r' || c == ' ' ||
    c == '\U{A0}' || c == '\U{1680}' || ('\U{2000}' <= c <= '\U{200A}') ||
    c == '\U{2028}' || c == '\U{2029}' || c == '\U{202F}' || c == '\U{205F}' ||
    c == '\U{3000}' || c == '\U{FEFF}'
  }

  /** `\w`, which decides `\b`: without the `u` flag the `i` flag does not widen it. */
  predicate IsWordChar(c: char) {
    ('a' <= c <= 'z') || ('A' <= c <= 'Z') || ('0' <= c <= '9') || c == '_'
  }

  /** `c` matches the ASCII pattern character `p` under the `i` flag.
      Without the `u` flag a character at or above U+0080 never folds to an
      ASCII letter, so for instance U+017F does not match `s`; the pattern
      here is all ASCII, so only the two ASCII cases of a letter match it. */
  predicate FoldsTo(c: char, p: char) {
    c == p || ('a' <= p <= 'z' && c as int == p as int - 32)
  }

  /** `:focus`, in any ASCII case, occupies `s[p..p + 6]`. */
  predicate FocusAt(s: string, p: nat) {
    p + 6 <= |s| &&
    s[p] == ':' && FoldsTo(s[p + 1], 'f') && FoldsTo(s[p + 2], 'o') &&
    FoldsTo(s[p + 3], 'c') && FoldsTo(s[p + 4], 'u') && FoldsTo(s[p + 5], 's')
  }

  /** `\b` after a word character: the end of the string or a non-word character. */
  predicate BoundaryAt(s: string, i: nat) {
    i == |s| || (i < |s| && !IsWordChar(s[i]))
  }

  /** A focus pseudo-class token, `:focus\b`, starts at `p`. */
  predicate TokenAt(s: string, p: nat) {
    FocusAt(s, p) && BoundaryAt(s, p + 6)
  }

  /** No focus pseudo-class token anywhere in `t`. */
  predicate FocusFree(t: string) {
    forall p :: 0 <= p < |t| ==> !TokenAt(t, p)
  }

  /** How many characters `\s*` consumes greedily from position `p`. */
  function WhitespaceRun(s: string, p: nat): (n: nat)
    requires p <= |s|
    ensures p + n <= |s|
    ensures forall i :: p <= i < p + n ==> IsWhitespace(s[i])
    ensures p + n < |s| ==> !IsWhitespace(s[p + n])
    decreases |s| - p
  {
    if p < |s| && IsWhitespace(s[p]) then 1 + WhitespaceRun(s, p + 1) else 0
  }

  /** The length of the match of `\s*:focus\b` that starts exactly at `p`,
      if there is one. Giving back whitespace to `\s*` cannot help, since
      the character after a shorter run is whitespace and not `:`; the
      greedy run is the only candidate (see MatchIsGreedy). */
  function MatchAt(s: string, p: nat): (m: Option<nat>)
    requires p <= |s|
  {
    var w := WhitespaceRun(s, p);
    if TokenAt(s, p + w) then Some(w + 6) else None
  }

  /** A match found at `p` is a whitespace run followed by a token. */
  lemma MatchIsWhitespaceThenToken(s: string, p: nat)
    requires p <= |s| && MatchAt(s, p).Some?
    ensures var n := MatchAt(s, p).value;
      n >= 6 && p + n <= |s| && TokenAt(s, p + n - 6) &&
      forall i :: p <= i < p + n - 6 ==> IsWhitespace(s[i])
  {
  }

  lemma WhitespaceIsNotPatternStart(c: char)
    requires IsWhitespace(c)
    ensures c != ':' && !IsWordChar(c)
  {
  }

  /** However the regular expression engine splits a match between `\s*` and
      `:focus`, the match it reports at `p` is the greedy one: any run of
      `w` whitespace characters followed by a token is the match at `p`. */
  lemma {:induction false} MatchIsGreedy(s: string, p: nat, w: nat)
    requires p + w <= |s|
    requires forall i :: p <= i < p + w ==> IsWhitespace(s[i])
    requires TokenAt(s, p + w)
    ensures MatchAt(s, p) == Some(w + 6)
  {
    RunIs(s, p, w);
  }

  lemma {:induction false} RunIs(s: string, p: nat, w: nat)
    requires p + w < |s|
    requires forall i :: p <= i < p + w ==> IsWhitespace(s[i])
    requires !IsWhitespace(s[p + w])
    ensures WhitespaceRun(s, p) == w
    decreases w
  {
    if w > 0 {
      RunIs(s, p + 1, w - 1);
    }
  }

  /** GetSubstitution: the replacement string `t` with its `$` patterns
      expanded for the match `s[b..e]`. `$$` gives `$`, `$&` the match,
      `` $` `` the text before it and `$'` the text after it. The pattern
      has no capture groups, so `$1`, `$<` and a lone `$` stay as written. */
  function Substitute(t: string, s: string, b: nat, e: nat): (r: string)
    requires b <= e <= |s|
    decreases |t|
  {
    if |t| == 0 then ""
    else if t[0] == '$' && |t| >= 2 && t[1] == '$' then "$" + Substitute(t[2..], s, b, e)
    else if t[0] == '$' && |t| >= 2 && t[1] == '&' then s[b..e] + Substitute(t[2..], s, b, e)
    else if t[0] == '$' && |t| >= 2 && t[1] == '`' then s[..b] + Substitute(t[2..], s, b, e)
    else if t[0] == '$' && |t| >= 2 && t[1] == '\'' then s[e..] + Substitute(t[2..], s, b, e)
    else [t[0]] + Substitute(t[1..], s, b, e)
  }

  /** A replacement string without `$` is inserted as it is. */
  lemma {:induction false} SubstituteLiteral(t: string, s: string, b: nat, e: nat)
    requires b <= e <= |s| && '$' !in t
    ensures Substitute(t, s, b, e) == t
    decreases |t|
  {
    if |t| > 0 {
      SubstituteLiteral(t[1..], s, b, e);
      assert [t[0]] + t[1..] == t;
    }
  }

  /** `String.prototype.replace` with the global flag, from position `q` on:
      try a match at `q`; on success emit the expanded replacement and
      resume after the match, otherwise copy one character. This yields the
      leftmost, non-overlapping matches, all of them. */
  function ReplaceFrom(s: string, rep: string, q: nat): (r: string)
    requires q <= |s|
    decreases |s| - q
  {
    if q == |s| then ""
    else match MatchAt(s, q)
      case Some(n) => Substitute(rep, s, q, q + n) + ReplaceFrom(s, rep, q + n)
      case None => [s[q]] + ReplaceFrom(s, rep, q + 1)
  }

  /** `_replaceFocusPseudoClass`. */
  function ReplaceFocusPseudoClass(selector: string, attr: string): (r: string) {
    ReplaceFrom(selector, "[" + attr + "]", 0)
  }

  // ---------------------------------------------------------------------
  // A selector without a focus token is returned unchanged

  lemma {:induction false} NoTokenUnchangedFrom(s: string, rep: string, q: nat)
    requires q <= |s|
    requires forall p :: q <= p < |s| ==> !TokenAt(s, p)
    ensures ReplaceFrom(s, rep, q) == s[q..]
    decreases |s| - q
  {
    if q < |s| {
      var w := WhitespaceRun(s, q);
      assert !TokenAt(s, q + w) by {
        if q + w == |s| {
          assert !FocusAt(s, q + w);
        }
      }
      NoTokenUnchangedFrom(s, rep, q + 1);
      assert [s[q]] + s[q + 1..] == s[q..];
    }
  }

  /** The rewrite is the identity on selectors that contain no `:focus\b`. */
  lemma KeepsSelectorWithoutFocus(selector: string, attr: string)
    requires FocusFree(selector)
    ensures ReplaceFocusPseudoClass(selector, attr) == selector
  {
    NoTokenUnchangedFrom(selector, "[" + attr + "]", 0);
  }

  // ---------------------------------------------------------------------
  // No focus token survives the rewrite

  lemma FocusHasNoBracket(t: string, p: nat, i: nat)
    requires p <= i < p + 6
    ensures FocusAt(t, p) ==> t[i] != '[' && t[i] != ']'
  {
    if i == p {
    } else if i == p + 1 {
    } else if i == p + 2 {
    } else if i == p + 3 {
    } else if i == p + 4 {
    } else {
    }
  }

  /** A token inside the first part of a concatenation is a token of that part. */
  lemma TokenInPrefix(x: string, y: string, p: nat)
    requires p + 6 <= |x|
    ensures TokenAt(x + y, p) ==> TokenAt(x, p)
  {
    var t := x + y;
    assert t[p] == x[p] && t[p + 1] == x[p + 1] && t[p + 2] == x[p + 2];
    assert t[p + 3] == x[p + 3] && t[p + 4] == x[p + 4] && t[p + 5] == x[p + 5];
    if p + 6 < |x| {
      assert t[p + 6] == x[p + 6];
    }
  }

  /** Tokens in the second part of a concatenation are the tokens of that part. */
  lemma TokenInSuffix(x: string, y: string, p: nat)
    requires |x| <= p
    ensures TokenAt(x + y, p) <==> TokenAt(y, p - |x|)
  {
    var t := x + y;
    var k := p - |x|;
    if p + 6 <= |t| {
      assert t[p] == y[k] && t[p + 1] == y[k + 1] && t[p + 2] == y[k + 2];
      assert t[p + 3] == y[k + 3] && t[p + 4] == y[k + 4] && t[p + 5] == y[k + 5];
      if p + 6 < |t| {
        assert t[p + 6] == y[k + 6];
      }
    }
  }

  /** One step of the scan, as two equations. */
  lemma ReplaceStep(s: string, rep: string, q: nat)
    requires q < |s|
    ensures MatchAt(s, q).Some? ==>
      q + MatchAt(s, q).value <= |s| &&
      ReplaceFrom(s, rep, q) ==
        Substitute(rep, s, q, q + MatchAt(s, q).value) + ReplaceFrom(s, rep, q + MatchAt(s, q).value)
    ensures MatchAt(s, q).None? ==> ReplaceFrom(s, rep, q) == [s[q]] + ReplaceFrom(s, rep, q + 1)
  {
  }

  /** Output that starts with anything but `[` at `q` copies `s[q]`. */
  lemma CopyOne(s: string, rep: string, q: nat)
    requires q <= |s| && |rep| > 0 && rep[0] == '['
    requires |ReplaceFrom(s, rep, q)| > 0 && ReplaceFrom(s, rep, q)[0] != '['
    ensures q < |s| && ReplaceFrom(s, rep, q) == [s[q]] + ReplaceFrom(s, rep, q + 1)
  {
    ReplaceStep(s, rep, q);
  }

  /** The character at which a match starts is never a word character. */
  lemma MatchStartIsNotWordChar(s: string, q: nat)
    requires q < |s|
    ensures MatchAt(s, q).Some? ==> !IsWordChar(s[q])
  {
    if WhitespaceRun(s, q) > 0 {
      WhitespaceIsNotPatternStart(s[q]);
    }
  }

  /** No token straddles or follows an emitted replacement `[attr]`. */
  lemma NoTokenAroundReplacement(attr: string, r: string, p: nat)
    requires FocusFree(attr) && FocusFree(r)
    requires p < |"[" + attr + "]" + r|
    ensures !TokenAt("[" + attr + "]" + r, p)
  {
    var rep := "[" + attr + "]";
    var o := rep + r;
    if p >= |rep| {
      TokenInSuffix(rep, r, p);
    } else if p == 0 {
      assert o[0] == '[';
    } else {
      var t := attr + ("]" + r);
      assert o == "[" + t;
      TokenInSuffix("[", t, p);
      if p - 1 + 6 <= |attr| {
        TokenInPrefix(attr, "]" + r, p - 1);
      } else {
        assert t[|attr|] == ']';
        FocusHasNoBracket(t, p - 1, |attr|);
      }
    }
  }

  /** Two characters of output without a `[` are two copied characters. */
  lemma CopyTwo(s: string, rep: string, q: nat)
    requires q <= |s| && |rep| > 0 && rep[0] == '['
    requires |ReplaceFrom(s, rep, q)| >= 2
    requires ReplaceFrom(s, rep, q)[0] != '[' && ReplaceFrom(s, rep, q)[1] != '['
    ensures q + 2 <= |s| && ReplaceFrom(s, rep, q) == [s[q], s[q + 1]] + ReplaceFrom(s, rep, q + 2)
  {
    CopyOne(s, rep, q);
    CopyOne(s, rep, q + 1);
  }

  /** Three pairs of copied characters that spell `:focus` spell it in the input. */
  lemma FocusInPairs(s: string, q: nat, o: string, o2: string, o4: string, o6: string)
    requires q + 6 <= |s|
    requires o == [s[q], s[q + 1]] + o2 && o2 == [s[q + 2], s[q + 3]] + o4 && o4 == [s[q + 4], s[q + 5]] + o6
    ensures FocusAt(o, 0) ==> FocusAt(s, q)
    ensures o[6..] == o6
  {
    assert o[2] == o2[0] && o[3] == o2[1];
    assert o[4] == o4[0] && o[5] == o4[1];
    assert o == [s[q], s[q + 1], s[q + 2], s[q + 3], s[q + 4], s[q + 5]] + o6;
  }

  /** A `:focus` at the start of the output was copied from `s[q..q + 6]`. */
  lemma CopiedFocus(s: string, rep: string, q: nat)
    requires q <= |s| && |rep| > 0 && rep[0] == '['
    requires FocusAt(ReplaceFrom(s, rep, q), 0)
    ensures q + 6 <= |s| && FocusAt(s, q)
    ensures ReplaceFrom(s, rep, q)[6..] == ReplaceFrom(s, rep, q + 6)
  {
    var o := ReplaceFrom(s, rep, q);
    CopyTwo(s, rep, q);
    var o2 := ReplaceFrom(s, rep, q + 2);
    assert o2[0] == o[2] && o2[1] == o[3];
    CopyTwo(s, rep, q + 2);
    var o4 := ReplaceFrom(s, rep, q + 4);
    assert o4[0] == o[4] && o4[1] == o[5];
    CopyTwo(s, rep, q + 4);
    FocusInPairs(s, q, o, o2, o4, ReplaceFrom(s, rep, q + 6));
  }

  /** At a `:focus`, the match is the token alone, if a boundary follows. */
  lemma MatchAtFocus(s: string, q: nat)
    requires FocusAt(s, q)
    ensures MatchAt(s, q) == if BoundaryAt(s, q + 6) then Some(6) else None
  {
    RunIs(s, q, 0);
  }

  /** A word character is copied to the output. */
  lemma WordCharIsCopied(s: string, rep: string, q: nat)
    requires q < |s| && IsWordChar(s[q])
    ensures |ReplaceFrom(s, rep, q)| > 0 && ReplaceFrom(s, rep, q)[0] == s[q]
  {
    ReplaceStep(s, rep, q);
    MatchStartIsNotWordChar(s, q);
  }

  /** A character the scan copied does not start a token of the output:
      it would have started a match of its own. */
  lemma NoTokenAtCopiedChar(s: string, rep: string, q: nat)
    requires q < |s| && |rep| > 0 && rep[0] == '['
    requires MatchAt(s, q).None?
    ensures !TokenAt(ReplaceFrom(s, rep, q), 0)
  {
    var o := ReplaceFrom(s, rep, q);
    if FocusAt(o, 0) {
      CopiedFocus(s, rep, q);
      // the token was not followed by a boundary in `s`, and the word
      // character after it is copied too
      MatchAtFocus(s, q);
      WordCharIsCopied(s, rep, q + 6);
      assert o[6] == ReplaceFrom(s, rep, q + 6)[0];
    }
  }

  /** A replacement without `$` is emitted as it is. */
  lemma EmitsLiteral(s: string, rep: string, q: nat)
    requires q < |s| && MatchAt(s, q).Some? && '$' !in rep
    ensures q + MatchAt(s, q).value <= |s|
    ensures ReplaceFrom(s, rep, q) == rep + ReplaceFrom(s, rep, q + MatchAt(s, q).value)
  {
    ReplaceStep(s, rep, q);
    SubstituteLiteral(rep, s, q, q + MatchAt(s, q).value);
  }

  lemma ReplacementThenFree(attr: string, r: string)
    requires FocusFree(attr) && FocusFree(r)
    ensures FocusFree("[" + attr + "]" + r)
  {
    forall p | 0 <= p < |"[" + attr + "]" + r| ensures !TokenAt("[" + attr + "]" + r, p) {
      NoTokenAroundReplacement(attr, r, p);
    }
  }

  /** A scan step that emits the replacement leaves no token behind. */
  lemma NoTokenAfterReplacement(s: string, attr: string, q: nat)
    requires q < |s| && MatchAt(s, q).Some? && FocusFree(attr) && '$' !in attr
    requires q + MatchAt(s, q).value <= |s|
    requires FocusFree(ReplaceFrom(s, "[" + attr + "]", q + MatchAt(s, q).value))
    ensures FocusFree(ReplaceFrom(s, "[" + attr + "]", q))
  {
    var rep := "[" + attr + "]";
    assert '$' !in rep;
    EmitsLiteral(s, rep, q);
    ReplacementThenFree(attr, ReplaceFrom(s, rep, q + MatchAt(s, q).value));
  }

  /** A scan step that copies a character leaves no token behind. */
  lemma NoTokenAfterCopy(s: string, attr: string, q: nat)
    requires q < |s| && MatchAt(s, q).None?
    requires FocusFree(ReplaceFrom(s, "[" + attr + "]", q + 1))
    ensures FocusFree(ReplaceFrom(s, "[" + attr + "]", q))
  {
    var rep := "[" + attr + "]";
    var r := ReplaceFrom(s, rep, q + 1);
    ReplaceStep(s, rep, q);
    forall p | 0 <= p < 1 + |r| ensures !TokenAt([s[q]] + r, p) {
      if p >= 1 {
        TokenInSuffix([s[q]], r, p);
      } else {
        NoTokenAtCopiedChar(s, rep, q);
      }
    }
  }

  lemma {:induction false} NoTokenRemainsFrom(s: string, attr: string, q: nat)
    requires q <= |s| && FocusFree(attr) && '$' !in attr
    ensures FocusFree(ReplaceFrom(s, "[" + attr + "]", q))
    decreases |s| - q
  {
    if q < |s| {
      ReplaceStep(s, "[" + attr + "]", q);
      if MatchAt(s, q).Some? {
        NoTokenRemainsFrom(s, attr, q + MatchAt(s, q).value);
        NoTokenAfterReplacement(s, attr, q);
      } else {
        NoTokenRemainsFrom(s, attr, q + 1);
        NoTokenAfterCopy(s, attr, q);
      }
    }
  }

  /** The rewrite is exhaustive: as long as the attribute name holds no
      focus token and no `$` pattern, none is left in the result, so every
      occurrence, in every case spelling, was replaced. */
  lemma ReplacesEveryFocus(selector: string, attr: string)
    requires FocusFree(attr) && '$' !in attr
    ensures FocusFree(ReplaceFocusPseudoClass(selector, attr))
  {
    NoTokenRemainsFrom(selector, attr, 0);
  }

  // ---------------------------------------------------------------------
  // Worked cases

  /** `:focused` is not the pseudo-class: `\b` fails before the `e`. */
  lemma KeepsFocused(attr: string)
    ensures ReplaceFocusPseudoClass("a:focused", attr) == "a:focused"
  {
    var s := "a:focused";
    forall p | 0 <= p < |s| ensures !TokenAt(s, p) {
      if p == 1 {
        assert IsWordChar(s[7]);
      } else {
        assert s[p] != ':';
      }
    }
    KeepsSelectorWithoutFocus(s, attr);
  }

  /** Other pseudo-classes are left alone. */
  lemma KeepsHover(attr: string)
    ensures ReplaceFocusPseudoClass("a:hover", attr) == "a:hover"
  {
    var s := "a:hover";
    forall p | 0 <= p < |s| ensures !TokenAt(s, p) {
      if p == 1 {
        assert s[2] == 'h';
      } else {
        assert s[p] != ':';
      }
    }
    KeepsSelectorWithoutFocus(s, attr);
  }

  const ExampleSelector := "a:focus, b :FOCUS"

  lemma ExampleStep8(rep: string)
    ensures ReplaceFrom(ExampleSelector, rep, 8) == " " + ReplaceFrom(ExampleSelector, rep, 9)
  {
    RunIs(ExampleSelector, 8, 1);
    ReplaceStep(ExampleSelector, rep, 8);
  }

  lemma ExampleStep9(rep: string)
    ensures ReplaceFrom(ExampleSelector, rep, 9) == "b" + ReplaceFrom(ExampleSelector, rep, 10)
  {
    RunIs(ExampleSelector, 9, 0);
    ReplaceStep(ExampleSelector, rep, 9);
  }

  lemma ExampleStep10(rep: string)
    requires '$' !in rep
    ensures ReplaceFrom(ExampleSelector, rep, 10) == rep
  {
    MatchIsGreedy(ExampleSelector, 10, 1);
    ReplaceStep(ExampleSelector, rep, 10);
    SubstituteLiteral(rep, ExampleSelector, 10, 17);
  }

  lemma ExampleStep0(rep: string)
    ensures ReplaceFrom(ExampleSelector, rep, 0) == "a" + ReplaceFrom(ExampleSelector, rep, 1)
  {
    RunIs(ExampleSelector, 0, 0);
    ReplaceStep(ExampleSelector, rep, 0);
  }

  lemma ExampleStep1(rep: string)
    requires '$' !in rep
    ensures ReplaceFrom(ExampleSelector, rep, 1) == rep + ReplaceFrom(ExampleSelector, rep, 7)
  {
    MatchIsGreedy(ExampleSelector, 1, 0);
    ReplaceStep(ExampleSelector, rep, 1);
    SubstituteLiteral(rep, ExampleSelector, 1, 7);
  }

  lemma ExampleStep7(rep: string)
    ensures ReplaceFrom(ExampleSelector, rep, 7) == "," + ReplaceFrom(ExampleSelector, rep, 8)
  {
    RunIs(ExampleSelector, 7, 0);
    ReplaceStep(ExampleSelector, rep, 7);
  }

  /** Both spellings in `a:focus, b :FOCUS` are rewritten, each with the
      blank before it, while the rest of the selector stays as it was:
      the result is `a[attr], b[attr]`. */
  lemma RewritesEachFocus(attr: string)
    requires '$' !in attr
    ensures var rep := "[" + attr + "]";
      ReplaceFocusPseudoClass(ExampleSelector, attr) == "a" + (rep + ("," + (" " + ("b" + rep))))
  {
    var rep := "[" + attr + "]";
    ExampleStep0(rep);
    ExampleStep1(rep);
    ExampleStep7(rep);
    ExampleStep8(rep);
    ExampleStep9(rep);
    ExampleStep10(rep);
  }

  const DollarSelector := "a:focus"

  lemma DollarStep0(rep: string)
    ensures ReplaceFrom(DollarSelector, rep, 0) == "a" + ReplaceFrom(DollarSelector, rep, 1)
  {
    RunIs(DollarSelector, 0, 0);
    ReplaceStep(DollarSelector, rep, 0);
  }

  lemma DollarStep1(rep: string)
    ensures ReplaceFrom(DollarSelector, rep, 1) == Substitute(rep, DollarSelector, 1, 7)
  {
    MatchIsGreedy(DollarSelector, 1, 0);
    ReplaceStep(DollarSelector, rep, 1);
  }

  /** `[$&]` expands to the match in brackets. */
  lemma SubstituteMatch(s: string, b: nat, e: nat)
    requires b <= e <= |s|
    ensures Substitute("[$&]", s, b, e) == "[" + s[b..e] + "]"
  {
    var t := "[$&]";
    assert t[1..] == "$&]" && t[1..][2..] == "]" && "]"[1..] == "";
    assert Substitute("]", s, b, e) == "]";
  }

  lemma DollarRewrite()
    ensures ReplaceFocusPseudoClass(DollarSelector, "$&") == "a" + ("[" + DollarSelector[1..7] + "]")
  {
    assert "[" + "$&" + "]" == "[$&]";
    DollarStep0("[$&]");
    DollarStep1("[$&]");
    SubstituteMatch(DollarSelector, 1, 7);
  }

  lemma FocusInBrackets()
    ensures "a" + ("[" + DollarSelector[1..7] + "]") == "a[:focus]"
    ensures TokenAt("a[:focus]", 2)
  {
    assert DollarSelector[1..7] == ":focus";
  }

  /** A `$&` in the attribute name brings the matched text back: with that
      name, `a:focus` becomes `a[:focus]`, which still holds the token. */
  lemma DollarPatternKeepsFocus()
    ensures ReplaceFocusPseudoClass(DollarSelector, "$&") == "a[:focus]"
    ensures !FocusFree(ReplaceFocusPseudoClass(DollarSelector, "$&"))
  {
    DollarRewrite();
    FocusInBrackets();
  }
}
