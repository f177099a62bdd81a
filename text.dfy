/**
 * The string operations the book forms and the book table rely on:
 * `String.prototype.trim`, `Array.prototype.join`, and a reference `split`
 * used only to state what a join produced.
 */
module Text {
  import opened Options

  /** The ECMAScript WhiteSpace and LineTerminator code points: exactly what `trim` strips. */
  predicate IsWhitespace(c: char) {
    || c == '\t' || c == '\n' || c == '\U{000B}' || c == '\U{000C}' || c == '\r' || c == ' '
    || c == '\U{00A0}' || c == '\U{1680}' || ('\U{2000}' <= c <= '\U{200A}')
    || c == '\U{2028}' || c == '\U{2029}' || c == '\U{202F}' || c == '\U{205F}'
    || c == '\U{3000}' || c == '\U{FEFF}'
  }

  predicate AllWhitespace(s: string) {
    forall i :: 0 <= i < |s| ==> IsWhitespace(s[i])
  }

  /** The number of whitespace characters `s` starts with. */
  function LeadingWhitespace(s: string): (k: nat)
    ensures k <= |s|
    ensures forall i :: 0 <= i < k ==> IsWhitespace(s[i])
    ensures k < |s| ==> !IsWhitespace(s[k])
  {
    if s != [] && IsWhitespace(s[0]) then 1 + LeadingWhitespace(s[1..]) else 0
  }

  /** The number of whitespace characters `s` ends with. */
  function TrailingWhitespace(s: string): (k: nat)
    ensures k <= |s|
    ensures forall i :: |s| - k <= i < |s| ==> IsWhitespace(s[i])
    ensures k < |s| ==> !IsWhitespace(s[|s| - 1 - k])
  {
    if s != [] && IsWhitespace(s[|s| - 1]) then 1 + TrailingWhitespace(s[..|s| - 1]) else 0
  }

  /** `trimStart`: drops the leading whitespace and nothing else. */
  function TrimStart(s: string): string {
    s[LeadingWhitespace(s)..]
  }

  lemma TrimStartKeepsVisibleStart(s: string)
    requires s != [] && !IsWhitespace(s[0])
    ensures TrimStart(s) == s
  {
    assert LeadingWhitespace(s) == 0;
  }

  /** `trimEnd`: drops the trailing whitespace and nothing else. */
  function TrimEnd(s: string): string {
    s[..|s| - TrailingWhitespace(s)]
  }

  /** `s[a..b]` is `s` with nothing but whitespace cut from either end. */
  predicate CutsWhitespaceOnly(s: string, a: int, b: int) {
    0 <= a <= b <= |s| && AllWhitespace(s[..a]) && AllWhitespace(s[b..])
  }

  /**
   * `String.prototype.trim`: the input with only whitespace removed at both
   * ends, and as much of it as there is. The result is empty exactly when the
   * input is all whitespace, and otherwise it starts and ends with a visible
   * character.
   */
  function Trim(s: string): (r: string)
    ensures exists a, b :: CutsWhitespaceOnly(s, a, b) && r == s[a..b]
    ensures r == [] <==> AllWhitespace(s)
    ensures r != [] ==> !IsWhitespace(r[0]) && !IsWhitespace(r[|r| - 1])
  {
    var t := TrimStart(s);
    TrimBoundaries(s, t, TrimEnd(t));
    TrimEnd(t)
  }

  lemma TrimBoundaries(s: string, t: string, r: string)
    requires t == TrimStart(s) && r == TrimEnd(t)
    ensures exists a, b :: CutsWhitespaceOnly(s, a, b) && r == s[a..b]
    ensures r == [] <==> AllWhitespace(s)
    ensures r != [] ==> !IsWhitespace(r[0]) && !IsWhitespace(r[|r| - 1])
  {
    var a := LeadingWhitespace(s);
    var k := TrailingWhitespace(t);
    var b := |s| - k;
    assert r == s[a..b];
    assert AllWhitespace(s[..a]);
    assert AllWhitespace(s[b..]) by {
      forall i | 0 <= i < |s| - b ensures IsWhitespace(s[b..][i]) {
        assert s[b..][i] == t[|t| - k + i];
      }
    }
    assert CutsWhitespaceOnly(s, a, b);
    if r == [] {
      assert a == |s|;
    } else {
      assert r[0] == t[0] == s[a];
    }
  }

  /**
   * `Array.prototype.join` on strings: the parts with `sep` between
   * neighbours. What it produces is stated by `SplitJoin` and `JoinLength`.
   */
  function Join(parts: seq<string>, sep: string): string {
    if |parts| == 0 then ""
    else if |parts| == 1 then parts[0]
    else parts[0] + sep + Join(parts[1..], sep)
  }

  /** The separator the book table and the selection boxes join names with. */
  const CommaSpace: string := ", "

  predicate OccursAt(s: string, sep: string, i: int) {
    0 <= i && i + |sep| <= |s| && s[i..i + |sep|] == sep
  }

  predicate Contains(s: string, sep: string) {
    exists i | 0 <= i <= |s| :: OccursAt(s, sep, i)
  }

  /** An occurrence after the first character of `s` is an occurrence in `s[1..]`, one place earlier. */
  lemma OccursInTail(s: string, sep: string, j: int)
    requires s != [] && j > 0
    ensures OccursAt(s, sep, j) <==> OccursAt(s[1..], sep, j - 1)
  {
    if OccursAt(s, sep, j) || OccursAt(s[1..], sep, j - 1) {
      assert s[1..][j - 1..j - 1 + |sep|] == s[j..j + |sep|];
    }
  }

  /** Index of the first occurrence of a non-empty `sep` in `s`. */
  function IndexOf(s: string, sep: string): (r: Option<nat>)
    requires sep != []
    ensures r.Some? ==> r.value + |sep| <= |s|
    decreases |s|
  {
    if |s| < |sep| then None
    else if s[..|sep|] == sep then Some(0)
    else
      match IndexOf(s[1..], sep)
      case None => None
      case Some(i) => Some(i + 1)
  }

  /** `IndexOf` finds nothing exactly when `sep` does not occur, and otherwise its first occurrence. */
  lemma {:induction false} IndexOfFindsFirst(s: string, sep: string)
    requires sep != []
    ensures IndexOf(s, sep).None? <==> !Contains(s, sep)
    ensures IndexOf(s, sep).Some? ==>
      var i := IndexOf(s, sep).value;
      OccursAt(s, sep, i) && forall j :: 0 <= j < i ==> !OccursAt(s, sep, j)
    decreases |s|
  {
    if |s| < |sep| {
    } else if s[..|sep|] == sep {
      assert OccursAt(s, sep, 0);
    } else {
      IndexOfFindsFirst(s[1..], sep);
      forall j | 0 < j <= |s| ensures OccursAt(s, sep, j) <==> OccursAt(s[1..], sep, j - 1) {
        OccursInTail(s, sep, j);
      }
      assert !OccursAt(s, sep, 0);
      match IndexOf(s[1..], sep)
      case None =>
        assert IndexOf(s, sep) == None;
        assert !Contains(s, sep) by {
          forall j | 0 <= j <= |s| ensures !OccursAt(s, sep, j) {
            if j > 0 { assert !OccursAt(s[1..], sep, j - 1); }
          }
        }
      case Some(i) =>
        assert IndexOf(s, sep) == Some(i + 1);
        assert OccursAt(s, sep, i + 1);
    }
  }

  /**
   * `String.prototype.split` with a non-empty separator: the pieces between
   * the occurrences of `sep`, found left to right. A reference definition only:
   * it states what a `Join` can be read back as.
   */
  function Split(s: string, sep: string): (r: seq<string>)
    requires sep != []
    ensures |r| >= 1
    decreases |s|
  {
    match IndexOf(s, sep)
    case None => [s]
    case Some(i) => [s[..i]] + Split(s[i + |sep|..], sep)
  }

  /** With ", " no occurrence can straddle the end of a part that holds none. */
  lemma {:induction false} FirstSeparatorAfterPart(p: string, rest: string)
    requires !Contains(p, CommaSpace)
    ensures IndexOf(p + CommaSpace + rest, CommaSpace) == Some(|p|)
    decreases |p|
  {
    var s := p + CommaSpace + rest;
    if p == [] {
      assert s[..2] == CommaSpace;
    } else {
      NoSeparatorAtStart(p, rest);
      NoSeparatorInTail(p);
      FirstSeparatorAfterPart(p[1..], rest);
      assert s[1..] == p[1..] + CommaSpace + rest;
    }
  }

  /** A non-empty part free of ", " cannot start with it, even once the separator follows it. */
  lemma NoSeparatorAtStart(p: string, rest: string)
    requires p != [] && !Contains(p, CommaSpace)
    ensures (p + CommaSpace + rest)[..2] != CommaSpace
  {
    var s := p + CommaSpace + rest;
    if |p| >= 2 {
      assert s[..2] == p[..2];
      assert !OccursAt(p, CommaSpace, 0);
    } else {
      assert s[1] == ',';
    }
  }

  /** Dropping the first character of a text free of ", " leaves it free of ", ". */
  lemma NoSeparatorInTail(p: string)
    requires p != [] && !Contains(p, CommaSpace)
    ensures !Contains(p[1..], CommaSpace)
  {
    forall j | 0 <= j <= |p[1..]| ensures !OccursAt(p[1..], CommaSpace, j) {
      OccursInTail(p, CommaSpace, j + 1);
    }
  }

  /**
   * Joining by ", " and splitting by ", " is the identity on a non-empty list
   * of parts none of which contains ", ": one piece per part, in order.
   */
  lemma {:induction false} SplitJoin(parts: seq<string>)
    requires |parts| >= 1
    requires forall k :: 0 <= k < |parts| ==> !Contains(parts[k], CommaSpace)
    ensures Split(Join(parts, CommaSpace), CommaSpace) == parts
  {
    if |parts| == 1 {
      IndexOfFindsFirst(parts[0], CommaSpace);
    } else {
      var rest := Join(parts[1..], CommaSpace);
      var s := parts[0] + CommaSpace + rest;
      assert Join(parts, CommaSpace) == s;
      FirstSeparatorAfterPart(parts[0], rest);
      assert s[..|parts[0]|] == parts[0];
      assert s[|parts[0]| + 2..] == rest;
      SplitJoin(parts[1..]);
    }
  }

  /** The separator count: n parts joined by ", " hold n - 1 separators besides their own text. */
  lemma {:induction false} JoinLength(parts: seq<string>)
    requires |parts| >= 1
    ensures |Join(parts, CommaSpace)| == TotalLength(parts) + 2 * (|parts| - 1)
  {
    if |parts| > 1 {
      JoinLength(parts[1..]);
    }
  }

  function TotalLength(parts: seq<string>): nat {
    if parts == [] then 0 else |parts[0]| + TotalLength(parts[1..])
  }
}
