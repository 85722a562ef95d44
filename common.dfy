/** Values shared by every part of the forum backend model: optional values,
    results carrying an HTTP-style error, JavaScript truthiness of optional
    strings, decimal rendering of numbers and the 100-code-unit preview used by
    the response transforms and the notification messages. */
module Common {

  datatype Option<+T> = None | Some(value: T) {
    function GetOr(default: T): T {
      match this
      case Some(v) => v
      case None => default
    }
  }

  /** A database failure that is not an HTTP exception: a constraint of the
      schema refusing a row, or TypeORM refusing an update with nothing to
      set. */
  datatype DbFailure =
    | NotNullViolation(column: string)
    | UniqueViolation(column: string)
    | UpdateValuesMissing

  /** The Nest HTTP exceptions the services throw, and the database failures
      that escape them. The transactions are returned without `await`, so
      no `catch` of the services sees a failure inside one: it reaches Nest's
      default handler, which answers with status 500. */
  datatype HttpError =
    | NotFound(message: string)
    | Unauthorized(message: string)
    | BadRequest(message: string)
    | Conflict(message: string)
    | Unhandled(failure: DbFailure)

  /** `error.message` of a thrown error. The database failures carry the
      gist of their driver's text; the constraint names the schema
      generates are not part of it. */
  function Message(e: HttpError): (m: string)
    ensures !e.Unhandled? ==> m == e.message
  {
    match e
    case Unhandled(NotNullViolation(c)) => "null value in column \"" + c + "\" violates not-null constraint"
    case Unhandled(UniqueViolation(c)) => "duplicate key value violates unique constraint on \"" + c + "\""
    case Unhandled(UpdateValuesMissing) => "Cannot perform update query because update values are not defined."
    case _ => e.message
  }

  datatype Result<+T> = Success(value: T) | Failure(error: HttpError)

  /** A cached value and the time, in milliseconds, it was stored. */
  datatype Cached<+T> = Cached(data: T, timestamp: int)

  /** A cache entry is served while it is younger than ttl milliseconds. */
  function CacheHit<T>(entry: Option<Cached<T>>, now: int, ttl: int): (r: Option<T>)
    ensures r.Some? <==> entry.Some? && now - entry.value.timestamp < ttl
    ensures r.Some? ==> r.value == entry.value.data
  {
    match entry
    case Some(c) => if now - c.timestamp < ttl then Some(c.data) else None
    case None => None
  }

  /** An optional JavaScript string used in a boolean position: `undefined`
      and the empty string are falsy. */
  predicate Truthy(s: Option<string>) {
    s.Some? && s.value != ""
  }

  /** A subset is no larger than its superset. */
  lemma SubsetCard<T>(a: set<T>, b: set<T>)
    requires a <= b
    ensures |a| <= |b|
  {
    assert b == a + (b - a);
  }

  function Min(a: int, b: int): int { if a <= b then a else b }

  function Max(a: int, b: int): int { if a <= b then b else a }

  function Abs(x: int): nat { if x < 0 then -x else x }

  lemma MulMonotone(a: int, b: int, c: int)
    requires a <= b && c >= 0
    ensures a * c <= b * c
  {
  }

  /** `Math.ceil(a / b)` for a non-negative dividend and a positive divisor. */
  function CeilDiv(a: nat, b: nat): (q: nat)
    requires b > 0
    ensures q * b >= a
    ensures q > 0 ==> (q - 1) * b < a
  {
    (a + b - 1) / b
  }

  function DigitChar(d: nat): char
    requires d < 10
  {
    "0123456789"[d]
  }

  /** `n.toString()` for a non-negative integer: decimal, no leading zeros. */
  function NatToString(n: nat): (s: string)
    ensures |s| >= 1
    ensures n < 10 <==> |s| == 1
    decreases n
  {
    if n < 10 then [DigitChar(n)] else NatToString(n / 10) + [DigitChar(n % 10)]
  }

  /** `s.substring(0, n)` with n >= 0: the first n characters, or all of s. */
  function Take(s: string, n: nat): (r: string)
    ensures |r| == Min(n, |s|)
    ensures r == s[..|r|]
  {
    if n <= |s| then s[..n] else s
  }

  /** The UTF-16 code units a character takes in a JavaScript string: two
      (a surrogate pair) outside the Basic Multilingual Plane, one inside. */
  function Utf16Width(c: char): (w: nat)
    ensures 1 <= w <= 2
    ensures w == 2 <==> c as int >= 0x1_0000
  {
    if c as int >= 0x1_0000 then 2 else 1
  }

  /** `s.length` in JavaScript: the number of UTF-16 code units of s. */
  function Utf16Length(s: string): (n: nat)
    ensures |s| <= n <= 2 * |s|
  {
    if s == [] then 0 else Utf16Width(s[0]) + Utf16Length(s[1..])
  }

  lemma {:induction false} Utf16LengthAppend(a: string, b: string)
    ensures Utf16Length(a + b) == Utf16Length(a) + Utf16Length(b)
  {
    if a != [] {
      assert (a + b)[1..] == a[1..] + b;
      Utf16LengthAppend(a[1..], b);
    } else {
      assert a + b == b;
    }
  }

  /** Text inside the Basic Multilingual Plane: one code unit per character. */
  predicate InBmp(s: string) {
    forall i :: 0 <= i < |s| ==> s[i] as int < 0x1_0000
  }

  /** For text inside the Basic Multilingual Plane the JavaScript length is
      the number of characters. */
  lemma {:induction false} BmpLengthIsCount(s: string)
    requires InBmp(s)
    ensures Utf16Length(s) == |s|
  {
    if s != [] {
      assert InBmp(s[1..]) by {
        forall i | 0 <= i < |s[1..]| ensures s[1..][i] as int < 0x1_0000 {
          assert s[1..][i] == s[i + 1];
        }
      }
      BmpLengthIsCount(s[1..]);
    }
  }

  /** Text made only of characters outside the Basic Multilingual Plane
      takes two code units per character. */
  lemma {:induction false} AstralLengthIsDouble(s: string)
    requires forall i :: 0 <= i < |s| ==> s[i] as int >= 0x1_0000
    ensures Utf16Length(s) == 2 * |s|
  {
    if s != [] {
      assert forall i :: 0 <= i < |s[1..]| ==> s[1..][i] == s[i + 1];
      AstralLengthIsDouble(s[1..]);
    }
  }

  /** `s.substring(0, n)` counted in UTF-16 code units, on whole characters:
      the longest prefix of s that fits in n code units. */
  function Utf16Take(s: string, n: nat): (r: string)
    ensures |r| <= |s| && r == s[..|r|]
    ensures Utf16Length(r) <= n
    ensures |r| < |s| ==> Utf16Length(s[..|r| + 1]) > n
  {
    if s == [] || Utf16Width(s[0]) > n then
      assert s != [] ==> s[..1][1..] == [];
      []
    else
      var rest := Utf16Take(s[1..], n - Utf16Width(s[0]));
      var r := [s[0]] + rest;
      assert r[1..] == rest;
      assert |r| < |s| ==> s[..|r| + 1][1..] == s[1..][..|rest| + 1];
      r
  }

  /** r is text cut to its longest prefix within 100 UTF-16 code units,
      followed by "...". */
  predicate IsCutPreview(text: string, r: string) {
    && |r| >= 3 && r[|r| - 3..] == "..."
    && |r| - 3 < |text| && r[..|r| - 3] == text[..|r| - 3]
    && Utf16Length(text[..|r| - 3]) <= 100 < Utf16Length(text[..|r| - 2])
  }

  /** `text.substring(0, 100) + (text.length > 100 ? '...' : '')`: the
      preview of a comment used in response transforms and notification
      messages, with JavaScript's lengths in UTF-16 code units. */
  function Preview(text: string): (r: string)
  {
    if Utf16Length(text) > 100 then Utf16Take(text, 100) + "..." else text
  }

  /** Text over 100 code units loses its tail: the kept prefix is the
      longest within 100 code units, which is 99 or 100 of them. */
  lemma CutPreview(text: string)
    requires Utf16Length(text) > 100
    ensures IsCutPreview(text, Preview(text))
    ensures 99 <= Utf16Length(Preview(text)[..|Preview(text)| - 3]) <= 100
    ensures |Preview(text)| <= 103
  {
    var p := Utf16Take(text, 100);
    var r := p + "...";
    assert r[..|r| - 3] == p && r[|r| - 3..] == "...";
    assert p != text;
    assert Utf16Length(text[..|p| + 1]) == Utf16Length(p) + Utf16Width(text[|p|]) by {
      assert text[..|p| + 1] == p + [text[|p|]];
      Utf16LengthAppend(p, [text[|p|]]);
      assert [text[|p|]][1..] == [];
    }
  }

  /** Inside the Basic Multilingual Plane the cut falls after the 100th
      character. */
  lemma BmpPreview(text: string)
    requires InBmp(text)
    ensures Preview(text) == if |text| > 100 then text[..100] + "..." else text
  {
    BmpLengthIsCount(text);
    if |text| > 100 {
      var p := Utf16Take(text, 100);
      assert InBmp(p) by {
        forall i | 0 <= i < |p| ensures p[i] as int < 0x1_0000 {
          assert p[i] == text[i];
        }
      }
      BmpLengthIsCount(p);
      var q := text[..|p| + 1];
      assert InBmp(q) by {
        forall i | 0 <= i < |q| ensures q[i] as int < 0x1_0000 {
          assert q[i] == text[i];
        }
      }
      BmpLengthIsCount(q);
    }
  }

  /** The preview keeps text of at most 100 code units and otherwise cuts it
      to its longest prefix within 100 code units (99 or 100 of them)
      followed by an ellipsis; it is never longer than 103 characters, and
      for text inside the Basic Multilingual Plane the cut falls after the
      100th character. */
  lemma PreviewShape(text: string)
    ensures Utf16Length(text) <= 100 ==> Preview(text) == text
    ensures Utf16Length(text) > 100 ==> IsCutPreview(text, Preview(text))
    ensures Utf16Length(text) > 100 ==> 99 <= Utf16Length(Preview(text)[..|Preview(text)| - 3]) <= 100
    ensures |Preview(text)| <= 103
    ensures InBmp(text) ==> Preview(text) == if |text| > 100 then text[..100] + "..." else text
  {
    if Utf16Length(text) > 100 {
      CutPreview(text);
    }
    if InBmp(text) {
      BmpPreview(text);
    }
  }

  /** Sixty characters outside the Basic Multilingual Plane make 120 code
      units, so their preview keeps fifty of them and adds the ellipsis. */
  lemma PreviewCountsCodeUnits(text: string)
    requires |text| == 60
    requires forall i :: 0 <= i < |text| ==> text[i] as int >= 0x1_0000
    ensures Preview(text) == text[..50] + "..."
  {
    AstralLengthIsDouble(text);
    var p := Utf16Take(text, 100);
    assert forall i :: 0 <= i < |p| ==> p[i] == text[i];
    AstralLengthIsDouble(p);
    assert forall i :: 0 <= i < |p| + 1 ==> text[..|p| + 1][i] == text[i];
    AstralLengthIsDouble(text[..|p| + 1]);
  }

  predicate IsPrefix(p: string, s: string) {
    |p| <= |s| && s[..|p|] == p
  }

  /** sub occurs in s starting at index i. */
  predicate OccursAt(s: string, sub: string, i: int) {
    0 <= i <= |s| - |sub| && s[i..i + |sub|] == sub
  }

  /** `s.includes(sub)`. */
  predicate Contains(s: string, sub: string) {
    exists i :: 0 <= i <= |s| && OccursAt(s, sub, i)
  }

  /** The first index at which sub occurs in s, searching from `from`. */
  function IndexOfFrom(s: string, sub: string, from: nat): (r: Option<nat>)
    requires from <= |s|
    ensures r.Some? ==> from <= r.value && OccursAt(s, sub, r.value)
    ensures r.Some? ==> forall j :: from <= j < r.value ==> !OccursAt(s, sub, j)
    ensures r.None? ==> forall j :: from <= j ==> !OccursAt(s, sub, j)
    decreases |s| - from
  {
    if from + |sub| > |s| then None
    else if s[from..from + |sub|] == sub then Some(from)
    else IndexOfFrom(s, sub, from + 1)
  }

  /** `s.replace(pattern, replacement)` with a string pattern: only the first
      occurrence is replaced. */
  function ReplaceFirst(s: string, pattern: string, replacement: string): (r: string)
  {
    match IndexOfFrom(s, pattern, 0)
    case None => s
    case Some(i) => s[..i] + replacement + s[i + |pattern|..]
  }

  /** Replacing a pattern that does not occur is the identity; a string that
      starts with the pattern loses exactly that prefix when the replacement
      is empty. */
  lemma ReplaceFirstFacts(s: string, pattern: string)
    ensures !Contains(s, pattern) ==> ReplaceFirst(s, pattern, "") == s
    ensures IsPrefix(pattern, s) ==> ReplaceFirst(s, pattern, "") == s[|pattern|..]
  {
    var r := IndexOfFrom(s, pattern, 0);
    if !Contains(s, pattern) {
      assert r.Some? ==> OccursAt(s, pattern, r.value);
    }
    if IsPrefix(pattern, s) {
      assert OccursAt(s, pattern, 0);
    }
  }

  lemma ContainsFromIndex(s: string, sub: string)
    ensures Contains(s, sub) <==> IndexOfFrom(s, sub, 0).Some?
  {
    var r := IndexOfFrom(s, sub, 0);
    if r.Some? {
      assert OccursAt(s, sub, r.value);
    }
  }
}
