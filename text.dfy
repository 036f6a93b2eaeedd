/** String operations the source takes from JavaScript: `String.prototype.trim` and the
    `\s` class of regular expressions. Both use the same character set. */
module Text {
  import Seqs

  /** ECMAScript's WhiteSpace and LineTerminator characters (tab, vertical tab, form feed,
      space, no-break space, byte order mark, the Unicode space separators, line feed,
      carriage return, line separator, paragraph separator). */
  predicate IsWhitespace(c: char)
  {
    c == '\t' || c == '\n' || c == '\U{000B}' || c == '\U{000C}' || c == '\r' || c == ' '
    || c == '\U{00A0}' || c == '\U{1680}' || ('\U{2000}' <= c <= '\U{200A}')
    || c == '\U{2028}' || c == '\U{2029}' || c == '\U{202F}' || c == '\U{205F}'
    || c == '\U{3000}' || c == '\U{FEFF}'
  }

  /** Every character of `s` is whitespace. */
  predicate AllWhitespace(s: string)
  {
    forall k :: 0 <= k < |s| ==> IsWhitespace(s[k])
  }

  /** The end of the longest whitespace run that starts at `i`: where a leading `trim`, or a
      greedy `\s*` in a regular expression, stops. */
  function WhitespaceEnd(s: string, i: nat): (r: nat)
    requires i <= |s|
    decreases |s| - i
    ensures i <= r <= |s|
    ensures forall k :: i <= k < r ==> IsWhitespace(s[k])
    ensures r == |s| || !IsWhitespace(s[r])
  {
    if i < |s| && IsWhitespace(s[i]) then WhitespaceEnd(s, i + 1) else i
  }

  /** The start of the longest whitespace run that ends at `c`, not going below `lo`: where a
      trailing `trim`, or a `\s*` before a fixed suffix, starts. */
  function WhitespaceStart(s: string, lo: nat, c: nat): (r: nat)
    requires lo <= c <= |s|
    decreases c
    ensures lo <= r <= c
    ensures forall k :: r <= k < c ==> IsWhitespace(s[k])
    ensures r == lo || !IsWhitespace(s[r - 1])
  {
    if lo < c && IsWhitespace(s[c - 1]) then WhitespaceStart(s, lo, c - 1) else c
  }

  /** `s.trim()`. */
  function Trim(s: string): string
  {
    var i := WhitespaceEnd(s, 0);
    s[i..WhitespaceStart(s, i, |s|)]
  }

  /** The trimmed text is the slice of `s` between a whitespace prefix and a whitespace
      suffix, and it neither starts nor ends with whitespace. */
  lemma TrimSlice(s: string) returns (i: nat, j: nat)
    ensures i <= j <= |s| && Trim(s) == s[i..j]
    ensures AllWhitespace(s[..i]) && AllWhitespace(s[j..])
    ensures Trim(s) == [] || (!IsWhitespace(Trim(s)[0]) && !IsWhitespace(Trim(s)[|Trim(s)| - 1]))
  {
    i := WhitespaceEnd(s, 0);
    j := WhitespaceStart(s, i, |s|);
    assert forall k :: 0 <= k < |s[j..]| ==> s[j..][k] == s[j + k];
  }

  /** A text that neither starts nor ends with whitespace is left as it is. */
  lemma TrimKeepsTrimmed(s: string)
    requires s == [] || (!IsWhitespace(s[0]) && !IsWhitespace(s[|s| - 1]))
    ensures Trim(s) == s
  {
    assert WhitespaceEnd(s, 0) == 0;
    if s != [] {
      assert WhitespaceStart(s, 0, |s|) == |s|;
    }
  }

  /** Trimming yields the empty string exactly when the text is all whitespace. */
  lemma TrimEmptyIff(s: string)
    ensures Trim(s) == [] <==> AllWhitespace(s)
  {
    var i, j := TrimSlice(s);
    if Trim(s) != [] {
      assert Trim(s)[0] == s[i];
    }
    if Trim(s) == [] {
      assert s == s[..i] + s[j..];
    }
  }

  /** Trimming twice is trimming once. */
  lemma TrimIdempotent(s: string)
    ensures Trim(Trim(s)) == Trim(s)
  {
    var i, j := TrimSlice(s);
    TrimKeepsTrimmed(Trim(s));
  }

  /** `s.replace(/\s+/g, '_')`: every maximal run of whitespace becomes one underscore. */
  function CollapseWhitespace(s: string): (r: string)
    decreases |s|
  {
    if s == [] then []
    else if IsWhitespace(s[0]) then
      "_" + CollapseWhitespace(s[WhitespaceEnd(s, 0)..])
    else [s[0]] + CollapseWhitespace(s[1..])
  }

  /** A whole run of whitespace becomes one underscore, however long the run. */
  lemma CollapseRun(w: string, t: string)
    requires w != [] && AllWhitespace(w)
    requires t == [] || !IsWhitespace(t[0])
    ensures CollapseWhitespace(w + t) == "_" + CollapseWhitespace(t)
  {
    var s := w + t;
    assert forall k :: 0 <= k < |w| ==> IsWhitespace(s[k]);
    assert WhitespaceEnd(s, 0) == |w| by {
      WhitespaceEndOfRun(s, 0, |w|);
    }
    assert s[|w|..] == t;
  }

  /** A character other than whitespace is kept as it is. */
  lemma CollapseKeepsChar(c: char, t: string)
    requires !IsWhitespace(c)
    ensures CollapseWhitespace([c] + t) == [c] + CollapseWhitespace(t)
  {
    assert ([c] + t)[1..] == t;
  }

  /** Wherever a whitespace run stands, it becomes one underscore: text `u` that does not
      end in whitespace, then the run `w`, then text `t` that does not start with
      whitespace. */
  lemma {:induction false} CollapseInnerRun(u: string, w: string, t: string)
    requires u == [] || !IsWhitespace(u[|u| - 1])
    requires w != [] && AllWhitespace(w)
    requires t == [] || !IsWhitespace(t[0])
    ensures CollapseWhitespace(u + w + t) == CollapseWhitespace(u) + "_" + CollapseWhitespace(t)
    decreases |u|
  {
    var x := w + t;
    assert u + w + t == u + x;
    if u == [] {
      assert u + x == w + t;
      CollapseRun(w, t);
    } else {
      var h, v := CollapseHead(u, x);
      assert v + w + t == v + x;
      CollapseInnerRun(v, w, t);
      Regroup(h, CollapseWhitespace(v), CollapseWhitespace(t));
    }
  }

  /** Concatenation regrouped around the underscore. */
  lemma Regroup(h: string, a: string, b: string)
    ensures h + (a + "_" + b) == (h + a) + "_" + b
  {
  }

  /** The first step of the replacement on `u + x` for text `u` that does not end in
      whitespace: the head `h` it writes and the part `v` of `u` it goes on with are the
      same as on `u` alone. */
  lemma CollapseHead(u: string, x: string) returns (h: string, v: string)
    requires u != [] && !IsWhitespace(u[|u| - 1])
    ensures |v| < |u| && (v == [] || !IsWhitespace(v[|v| - 1]))
    ensures CollapseWhitespace(u + x) == h + CollapseWhitespace(v + x)
    ensures CollapseWhitespace(u) == h + CollapseWhitespace(v)
  {
    var s := u + x;
    if IsWhitespace(u[0]) {
      var r := WhitespaceEnd(u, 0);
      assert r < |u|;
      assert forall k :: 0 <= k <= r ==> s[k] == u[k];
      WhitespaceEndOfRun(s, 0, r);
      h, v := "_", u[r..];
      assert s[r..] == v + x;
    } else {
      h, v := [u[0]], u[1..];
      assert s[1..] == v + x;
    }
  }

  /** The whitespace run from `i` ends at `e` when `s[i..e]` is whitespace and `s[e]` is not. */
  lemma {:induction false} WhitespaceEndOfRun(s: string, i: nat, e: nat)
    requires i <= e <= |s|
    requires forall k :: i <= k < e ==> IsWhitespace(s[k])
    requires e == |s| || !IsWhitespace(s[e])
    ensures WhitespaceEnd(s, i) == e
    decreases e - i
  {
    if i < e {
      WhitespaceEndOfRun(s, i + 1, e);
    }
  }

  /** No whitespace survives the replacement. */
  lemma {:induction false} CollapseLeavesNoWhitespace(s: string)
    ensures NoWhitespace(CollapseWhitespace(s))
    decreases |s|
  {
    if s != [] {
      var rest := if IsWhitespace(s[0]) then s[WhitespaceEnd(s, 0)..] else s[1..];
      var head := if IsWhitespace(s[0]) then '_' else s[0];
      CollapseLeavesNoWhitespace(rest);
      assert CollapseWhitespace(s) == [head] + CollapseWhitespace(rest);
      NoWhitespaceCons(head, CollapseWhitespace(rest));
    }
  }

  /** No character of `s` is whitespace. */
  predicate NoWhitespace(s: string)
  {
    forall k :: 0 <= k < |s| ==> !IsWhitespace(s[k])
  }

  lemma NoWhitespaceCons(c: char, s: string)
    requires !IsWhitespace(c) && NoWhitespace(s)
    ensures NoWhitespace([c] + s)
  {
    forall k | 0 <= k < |[c] + s| ensures !IsWhitespace(([c] + s)[k]) {
      if k > 0 { assert ([c] + s)[k] == s[k - 1]; }
    }
  }

  /** A string without whitespace is left as it is. */
  lemma {:induction false} CollapseKeepsPlainText(s: string)
    requires NoWhitespace(s)
    ensures CollapseWhitespace(s) == s
  {
    if s != [] {
      CollapseKeepsPlainText(s[1..]);
    }
  }

  /** A character that is neither whitespace nor an underscore. */
  predicate IsWordChar(c: char)
  {
    !IsWhitespace(c) && c != '_'
  }

  /** A character other than the underscore. */
  predicate IsNotUnderscore(c: char)
  {
    c != '_'
  }

  /** Apart from the underscores, the replacement keeps exactly the non-whitespace
      characters of the input, in order. */
  lemma {:induction false} CollapseKeepsWords(s: string)
    ensures Seqs.Filter(IsNotUnderscore, CollapseWhitespace(s)) == Seqs.Filter(IsWordChar, s)
    decreases |s|
  {
    if s == [] {
    } else if IsWhitespace(s[0]) {
      var n := WhitespaceEnd(s, 0);
      var w, t := s[..n], s[n..];
      assert s == w + t;
      CollapseKeepsWords(t);
      KeepsWordsPastRun(w, t);
    } else {
      assert s == [s[0]] + s[1..];
      CollapseKeepsWords(s[1..]);
      KeepsWordsPastChar(s[0], s[1..]);
    }
  }

  /** The step of `CollapseKeepsWords` over a leading whitespace run `w`. */
  lemma KeepsWordsPastRun(w: string, t: string)
    requires w != [] && AllWhitespace(w) && (t == [] || !IsWhitespace(t[0]))
    requires Seqs.Filter(IsNotUnderscore, CollapseWhitespace(t)) == Seqs.Filter(IsWordChar, t)
    ensures Seqs.Filter(IsNotUnderscore, CollapseWhitespace(w + t)) == Seqs.Filter(IsWordChar, w + t)
  {
    CollapseRun(w, t);
    Seqs.FilterAppend(IsNotUnderscore, "_", CollapseWhitespace(t));
    Seqs.FilterSingle(IsNotUnderscore, '_');
    Seqs.FilterAppend(IsWordChar, w, t);
    Seqs.FilterNone(IsWordChar, w);
  }

  /** The step of `CollapseKeepsWords` over a leading character `c` other than whitespace. */
  lemma KeepsWordsPastChar(c: char, t: string)
    requires !IsWhitespace(c)
    requires Seqs.Filter(IsNotUnderscore, CollapseWhitespace(t)) == Seqs.Filter(IsWordChar, t)
    ensures Seqs.Filter(IsNotUnderscore, CollapseWhitespace([c] + t)) == Seqs.Filter(IsWordChar, [c] + t)
  {
    CollapseKeepsChar(c, t);
    Seqs.FilterAppend(IsNotUnderscore, [c], CollapseWhitespace(t));
    Seqs.FilterSingle(IsNotUnderscore, c);
    Seqs.FilterAppend(IsWordChar, [c], t);
    Seqs.FilterSingle(IsWordChar, c);
  }


}
