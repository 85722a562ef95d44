/** The whitespace-only check used on comment texts: a value passes when
    something is left after trimming whitespace from both ends. */
module NoWhitespace {

  /** The characters `String.prototype.trim` removes: the ECMAScript
      WhiteSpace and LineTerminator code points. */
  predicate IsWhitespace(c: char) {
    || c == '\t' || c == '\n' || c == '\U{000B}' || c == '\U{000C}' || c == '\r' || c == ' '
    || c == '\U{00A0}' || c == '\U{1680}' || ('\U{2000}' <= c <= '\U{200A}')
    || c == '\U{2028}' || c == '\U{2029}' || c == '\U{202F}' || c == '\U{205F}'
    || c == '\U{3000}' || c == '\U{FEFF}'
  }

  predicate AllWhitespace(s: string) {
    forall i :: 0 <= i < |s| ==> IsWhitespace(s[i])
  }

  /** s without its leading whitespace. */
  function TrimStart(s: string): (r: string)
    ensures |r| <= |s| && r == s[|s| - |r|..]
    ensures AllWhitespace(s[..|s| - |r|])
    ensures r != [] ==> !IsWhitespace(r[0])
    decreases |s|
  {
    if s != [] && IsWhitespace(s[0]) then
      var r := TrimStart(s[1..]);
      assert s[..|s| - |r|] == [s[0]] + s[1..][..|s| - 1 - |r|];
      r
    else s
  }

  /** s without its trailing whitespace. */
  function TrimEnd(s: string): (r: string)
    ensures |r| <= |s| && r == s[..|r|]
    ensures AllWhitespace(s[|r|..])
    ensures r != [] ==> !IsWhitespace(r[|r| - 1])
    decreases |s|
  {
    if s != [] && IsWhitespace(s[|s| - 1]) then
      var r := TrimEnd(s[..|s| - 1]);
      assert s[|r|..] == s[..|s| - 1][|r|..] + [s[|s| - 1]];
      r
    else s
  }

  function Trim(s: string): string {
    TrimEnd(TrimStart(s))
  }

  /** The validator itself. */
  predicate Validate(s: string) {
    |Trim(s)| > 0
  }

  /** A value is accepted exactly when it has a character that is not
      whitespace. */
  lemma ValidIffHasNonWhitespace(s: string)
    ensures Validate(s) <==> exists i :: 0 <= i < |s| && !IsWhitespace(s[i])
  {
    var t := TrimStart(s);
    var k := |s| - |t|;
    if Validate(s) {
      assert !IsWhitespace(s[k]);
    } else {
      forall i | 0 <= i < |s|
        ensures IsWhitespace(s[i])
      {
        assert s[..k][i] == s[i];
      }
    }
  }

  /** In particular the empty string and all-whitespace strings fail. */
  lemma WhitespaceOnlyRejected(s: string)
    requires AllWhitespace(s)
    ensures !Validate(s)
  {
    ValidIffHasNonWhitespace(s);
  }

  /** Whitespace added at either end never changes the verdict. */
  lemma PaddingIrrelevant(pre: string, s: string, post: string)
    requires AllWhitespace(pre) && AllWhitespace(post)
    ensures Validate(pre + s + post) == Validate(s)
  {
    var padded := pre + s + post;
    ValidIffHasNonWhitespace(s);
    ValidIffHasNonWhitespace(padded);
    if i :| 0 <= i < |s| && !IsWhitespace(s[i]) {
      assert padded[|pre| + i] == s[i];
    }
    if i :| 0 <= i < |padded| && !IsWhitespace(padded[i]) {
      assert |pre| <= i < |pre| + |s|;
      assert s[i - |pre|] == padded[i];
    }
  }

  /** A trimmed value has nothing left to trim, and it gets the same verdict
      as the value it came from. */
  lemma TrimIdempotent(s: string)
    ensures Trim(Trim(s)) == Trim(s)
    ensures Validate(Trim(s)) == Validate(s)
  {
    var t := TrimStart(s);
    var u := TrimEnd(t);
    // u keeps t's first character when non-empty, so nothing leads it
    if u != [] {
      assert u[0] == t[0];
    }
    assert TrimStart(u) == u;
    assert TrimEnd(u) == u;
  }
}
