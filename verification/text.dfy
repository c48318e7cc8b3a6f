/** String helpers standing in for the Python `str` methods the field parser
    uses: `str.isspace`, `str.strip`, `str.split('\n')` and `str.split(':', 1)`.
    Strings are `seq<char>`; there is no normalisation or case folding. */
module Text {

  /** The characters Python's `str.isspace` accepts (and `str.strip()` with no
      argument removes): the ASCII controls TAB..CR and FS..US, SPACE, NEL,
      NO-BREAK SPACE, OGHAM SPACE MARK, EN QUAD..HAIR SPACE, LINE and
      PARAGRAPH SEPARATOR, NARROW NO-BREAK SPACE, MEDIUM MATHEMATICAL SPACE
      and IDEOGRAPHIC SPACE. */
  predicate IsSpace(c: char) {
    || ('\t' <= c <= '\r')
    || ('\U{1C}' <= c <= ' ')
    || c == '\U{85}'
    || c == '\U{A0}'
    || c == '\U{1680}'
    || ('\U{2000}' <= c <= '\U{200A}')
    || c == '\U{2028}'
    || c == '\U{2029}'
    || c == '\U{202F}'
    || c == '\U{205F}'
    || c == '\U{3000}'
  }

  /** Every character of `s` is white space (Python: `not s.strip()`). */
  predicate IsBlank(s: string) {
    forall i :: 0 <= i < |s| ==> IsSpace(s[i])
  }

  /** Neither end of `s` is white space. */
  predicate IsTrimmed(s: string) {
    |s| > 0 ==> !IsSpace(s[0]) && !IsSpace(s[|s| - 1])
  }

  /** `s` with its longest blank prefix removed (`TrimStartSpec`). */
  function TrimStart(s: string): string {
    if |s| > 0 && IsSpace(s[0]) then TrimStart(s[1..]) else s
  }

  /** `s` with its longest blank suffix removed (`TrimEndSpec`). */
  function TrimEnd(s: string): string {
    if |s| > 0 && IsSpace(s[|s| - 1]) then TrimEnd(s[..|s| - 1]) else s
  }

  /** Python's `s.strip()`: white space removed from both ends. `StripSpec`
      and `StripDecompose` state what it returns. */
  function Strip(s: string): string {
    TrimEnd(TrimStart(s))
  }

  /** `TrimStart` removes a blank prefix and leaves a suffix of `s` that is
      empty or starts with a non-space character. */
  lemma {:induction false} TrimStartSpec(s: string)
    ensures var r := TrimStart(s);
      && |r| <= |s| && r == s[|s| - |r|..]
      && IsBlank(s[..|s| - |r|])
      && (|r| > 0 ==> !IsSpace(r[0]))
    decreases |s|
  {
    if |s| > 0 && IsSpace(s[0]) {
      var r := TrimStart(s[1..]);
      TrimStartSpec(s[1..]);
      var k := |s| - |r|;
      assert s[1..][|s| - 1 - |r|..] == s[k..];
      forall i | 0 <= i < k ensures IsSpace(s[..k][i]) {
        if i > 0 { assert s[..k][i] == s[1..][..k - 1][i - 1]; }
      }
    } else {
      assert s[..0] == [];
    }
  }

  /** `TrimEnd` removes a blank suffix and leaves a prefix of `s` that is
      empty or ends with a non-space character. */
  lemma {:induction false} TrimEndSpec(s: string)
    ensures var r := TrimEnd(s);
      && |r| <= |s| && r == s[..|r|]
      && IsBlank(s[|r|..])
      && (|r| > 0 ==> !IsSpace(r[|r| - 1]))
    decreases |s|
  {
    if |s| > 0 && IsSpace(s[|s| - 1]) {
      var n := |s| - 1;
      var r := TrimEnd(s[..n]);
      TrimEndSpec(s[..n]);
      assert s[..n][..|r|] == s[..|r|];
      forall i | 0 <= i < |s| - |r| ensures IsSpace(s[|r|..][i]) {
        if i < n - |r| { assert s[|r|..][i] == s[..n][|r|..][i]; }
      }
    }
  }

  /** `Strip`'s result starts and ends with a non-space character, and is
      empty exactly when `s` is blank. */
  lemma StripSpec(s: string)
    ensures |Strip(s)| <= |s|
    ensures IsTrimmed(Strip(s))
    ensures Strip(s) == "" <==> IsBlank(s)
  {
    var t := TrimStart(s);
    TrimStartSpec(s);
    TrimEndSpec(t);
    var r := TrimEnd(t);
    if t == "" {
      assert s[..|s|] == s;
    } else {
      assert r[0] == t[0];
      assert s[|s| - |t|] == t[0];
    }
  }

  /** The stripped text sits inside `s` between a blank prefix and a blank
      suffix. */
  lemma StripDecompose(s: string) returns (lead: string, trail: string)
    ensures s == lead + Strip(s) + trail
    ensures IsBlank(lead) && IsBlank(trail)
  {
    var t := TrimStart(s);
    var r := TrimEnd(t);
    TrimStartSpec(s);
    TrimEndSpec(t);
    lead, trail := s[..|s| - |t|], t[|r|..];
    TakeDrop(s, |s| - |t|);
    TakeDrop(t, |r|);
    ConcatAssoc(lead, r, trail);
  }

  /** A string is its first `k` characters followed by the rest. */
  lemma TakeDrop(s: string, k: nat)
    requires k <= |s|
    ensures s == s[..k] + s[k..]
  {
  }

  /** Stripping a string that is already trimmed changes nothing. */
  lemma StripTrimmed(s: string)
    requires IsTrimmed(s)
    ensures Strip(s) == s
  {
    if |s| > 0 {
      assert TrimStart(s) == s;
    }
  }

  /** `Strip` is idempotent. */
  lemma StripIdempotent(s: string)
    ensures Strip(Strip(s)) == Strip(s)
  {
    StripSpec(s);
    StripTrimmed(Strip(s));
  }

  /** White-space padding on either side does not survive stripping. */
  lemma {:induction false} StripPadding(lead: string, s: string, trail: string)
    requires IsBlank(lead) && IsBlank(trail) && IsTrimmed(s)
    ensures Strip(lead + s + trail) == s
  {
    ConcatAssoc(lead, s, trail);
    if s == "" {
      assert lead + s + trail == lead + trail;
      BlankConcat(lead, trail);
      StripSpec(lead + trail);
    } else {
      TrimStartBlankPrefix(lead, s + trail);
      TrimEndBlankSuffix(s, trail);
    }
  }

  /** Two blank strings make a blank string. */
  lemma BlankConcat(a: string, b: string)
    requires IsBlank(a) && IsBlank(b)
    ensures IsBlank(a + b)
  {
    forall i | 0 <= i < |a + b| ensures IsSpace((a + b)[i]) {
      if i < |a| { assert (a + b)[i] == a[i]; }
      else { assert (a + b)[i] == b[i - |a|]; }
    }
  }

  lemma {:induction false} TrimStartBlankPrefix(lead: string, s: string)
    requires IsBlank(lead) && (|s| > 0 ==> !IsSpace(s[0]))
    ensures TrimStart(lead + s) == s
  {
    if |lead| > 0 {
      assert (lead + s)[1..] == lead[1..] + s;
      TrimStartBlankPrefix(lead[1..], s);
    } else {
      assert lead + s == s;
    }
  }

  lemma {:induction false} TrimEndBlankSuffix(s: string, trail: string)
    requires IsBlank(trail) && (|s| > 0 ==> !IsSpace(s[|s| - 1]))
    ensures TrimEnd(s + trail) == s
  {
    if |trail| > 0 {
      var n := |trail| - 1;
      assert (s + trail)[..|s + trail| - 1] == s + trail[..n];
      TrimEndBlankSuffix(s, trail[..n]);
    } else {
      assert s + trail == s;
    }
  }

  /** Concatenation is associative (stated once so that proofs about
      appended values do not re-derive it). */
  lemma ConcatAssoc(a: string, b: string, c: string)
    ensures (a + b) + c == a + (b + c)
  {
  }

  /* ---------------------------------------------------------------- lines */

  /** Python's `s.split('\n')`: the pieces between newline characters, so
      there is always at least one piece and `""` gives `[""]`. */
  function SplitLines(s: string): (r: seq<string>)
    ensures |r| >= 1
  {
    if |s| == 0 then [""]
    else
      var rest := SplitLines(s[1..]);
      if s[0] == '\n' then [""] + rest
      else [[s[0]] + rest[0]] + rest[1..]
  }

  /** No piece of a split contains the separator. */
  lemma {:induction false} SplitLinesNoNewline(s: string)
    ensures forall i :: 0 <= i < |SplitLines(s)| ==> '\n' !in SplitLines(s)[i]
  {
    if |s| > 0 {
      SplitLinesNoNewline(s[1..]);
      var rest := SplitLines(s[1..]);
      if s[0] != '\n' {
        var r := SplitLines(s);
        forall i | 0 <= i < |r| ensures '\n' !in r[i] {
          if i == 0 {
            assert r[0] == [s[0]] + rest[0];
          } else {
            assert r[i] == rest[i];
          }
        }
      }
    }
  }

  /** Python's `'\n'.join(lines)`, the inverse of `SplitLines`. */
  function JoinLines(lines: seq<string>): string
    requires |lines| >= 1
  {
    if |lines| == 1 then lines[0] else lines[0] + "\n" + JoinLines(lines[1..])
  }

  /** Splitting and re-joining gives back the text. */
  lemma {:induction false} JoinSplit(s: string)
    ensures JoinLines(SplitLines(s)) == s
  {
    if |s| > 0 {
      var rest := SplitLines(s[1..]);
      JoinSplit(s[1..]);
      if s[0] != '\n' {
        var r := SplitLines(s);
        assert r[1..] == rest[1..];
        if |rest| > 1 {
          assert rest == [rest[0]] + rest[1..];
        }
        assert s == [s[0]] + s[1..];
      } else {
        assert s == "\n" + s[1..];
      }
    }
  }

  /** Joining newline-free lines and splitting again gives back the lines. */
  lemma {:induction false} SplitJoin(lines: seq<string>)
    requires |lines| >= 1
    requires forall i :: 0 <= i < |lines| ==> '\n' !in lines[i]
    ensures SplitLines(JoinLines(lines)) == lines
  {
    if |lines| == 1 {
      SplitNoNewline(lines[0]);
    } else {
      SplitJoin(lines[1..]);
      SplitPrefix(lines[0], JoinLines(lines[1..]));
      assert lines == [lines[0]] + lines[1..];
    }
  }

  /** A newline-free string is a single line. */
  lemma {:induction false} SplitNoNewline(s: string)
    requires '\n' !in s
    ensures SplitLines(s) == [s]
  {
    if |s| > 0 {
      SplitNoNewline(s[1..]);
      assert s == [s[0]] + s[1..];
    }
  }

  /** A newline-free first line followed by a newline splits off as one piece. */
  lemma {:induction false} SplitPrefix(a: string, b: string)
    requires '\n' !in a
    ensures SplitLines(a + "\n" + b) == [a] + SplitLines(b)
  {
    if |a| == 0 {
      assert a + "\n" + b == "\n" + b;
      assert ("\n" + b)[1..] == b;
    } else {
      assert (a + "\n" + b)[1..] == a[1..] + "\n" + b;
      SplitPrefix(a[1..], b);
      assert a == [a[0]] + a[1..];
    }
  }

  /* ------------------------------------------------------ first separator */

  /** Python's `s.split(sep, 1)` when `sep` occurs in `s`: the text before the
      first occurrence of `sep` and the text after it. */
  function SplitAtFirst(s: string, sep: char): (string, string)
    requires sep in s
  {
    if s[0] == sep then ("", s[1..])
    else
      var (a, b) := SplitAtFirst(s[1..], sep);
      assert s == [s[0]] + s[1..];
      ([s[0]] + a, b)
  }

  /** The head of the split is free of `sep`, and the head, `sep` and the
      tail make up `s`. */
  lemma {:induction false} SplitAtFirstSpec(s: string, sep: char)
    requires sep in s
    ensures sep !in SplitAtFirst(s, sep).0
    ensures s == SplitAtFirst(s, sep).0 + [sep] + SplitAtFirst(s, sep).1
  {
    if s[0] != sep {
      assert s == [s[0]] + s[1..];
      SplitAtFirstSpec(s[1..], sep);
    }
  }

  /** The split is determined by the first occurrence: any decomposition whose
      head does not contain `sep` is the one `SplitAtFirst` returns. */
  lemma {:induction false} SplitAtFirstUnique(s: string, sep: char, head: string, tail: string)
    requires s == head + [sep] + tail && sep !in head
    ensures SplitAtFirst(s, sep) == (head, tail)
  {
    if head == "" {
      assert s == [sep] + tail;
    } else {
      assert s[0] == head[0];
      assert s[1..] == head[1..] + [sep] + tail;
      SplitAtFirstUnique(s[1..], sep, head[1..], tail);
      assert head == [head[0]] + head[1..];
    }
  }
}
