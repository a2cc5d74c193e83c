/** String operations of the JavaScript and Rust standard libraries that the core relies on:
    `trim`, `startsWith`, ASCII case folding, `split` on a separator and on `/\s+/`, and `join`. */
module Text {

  /** The characters JavaScript's `trim` removes and `\s` matches: WhiteSpace and LineTerminator. */
  predicate IsJsWhitespace(c: char) {
    || c == '\t' || c == '\n' || c == '\U{000B}' || c == '\U{000C}' || c == '\r' || c == ' '
    || c == '\U{00A0}' || c == '\U{1680}' || ('\U{2000}' <= c <= '\U{200A}')
    || c == '\U{2028}' || c == '\U{2029}' || c == '\U{202F}' || c == '\U{205F}' || c == '\U{3000}'
    || c == '\U{FEFF}'
  }

  predicate HasWhitespace(s: string) {
    exists i :: 0 <= i < |s| && IsJsWhitespace(s[i])
  }

  function TrimStart(s: string): (r: string)
    ensures |r| <= |s| && r == s[|s| - |r|..]
    ensures r == [] || !IsJsWhitespace(r[0])
    ensures forall i :: 0 <= i < |s| - |r| ==> IsJsWhitespace(s[i])
  {
    if s != [] && IsJsWhitespace(s[0]) then TrimStart(s[1..]) else s
  }

  function TrimEnd(s: string): (r: string)
    ensures |r| <= |s| && r == s[..|r|]
    ensures r == [] || !IsJsWhitespace(r[|r| - 1])
    ensures forall i :: |r| <= i < |s| ==> IsJsWhitespace(s[i])
  {
    if s != [] && IsJsWhitespace(s[|s| - 1]) then TrimEnd(s[..|s| - 1]) else s
  }

  /** `s.trim()`: the longest slice of `s` that neither starts nor ends with whitespace. */
  function Trim(s: string): (r: string)
    ensures |r| <= |s|
    ensures r == [] || (!IsJsWhitespace(r[0]) && !IsJsWhitespace(r[|r| - 1]))
  {
    var t := TrimStart(s);
    var r := TrimEnd(t);
    r
  }

  /** A string that neither starts nor ends with whitespace is its own trim. */
  lemma TrimOfTrimmed(s: string)
    requires s == [] || (!IsJsWhitespace(s[0]) && !IsJsWhitespace(s[|s| - 1]))
    ensures Trim(s) == s
  {
  }

  /** A string of whitespace only trims to the empty string. */
  lemma {:induction false} TrimOfBlank(s: string)
    requires forall i :: 0 <= i < |s| ==> IsJsWhitespace(s[i])
    ensures Trim(s) == []
  {
    if s != [] {
      TrimOfBlank(s[1..]);
    }
  }

  predicate StartsWith<T(==)>(s: seq<T>, prefix: seq<T>) {
    |prefix| <= |s| && s[..|prefix|] == prefix
  }

  // ---------------------------------------------------------------------------
  // ASCII case folding (what `/.../i` and `toUpperCase` do to the ASCII letters)

  function AsciiUpper(c: char): char {
    if 'a' <= c <= 'z' then (c as int - 32) as char else c
  }

  function AsciiLower(c: char): char {
    if 'A' <= c <= 'Z' then (c as int + 32) as char else c
  }

  function UpperAll(s: string): (r: string)
    ensures |r| == |s| && forall i :: 0 <= i < |s| ==> r[i] == AsciiUpper(s[i])
  {
    seq(|s|, i requires 0 <= i < |s| => AsciiUpper(s[i]))
  }

  function LowerAll(s: string): (r: string)
    ensures |r| == |s| && forall i :: 0 <= i < |s| ==> r[i] == AsciiLower(s[i])
  {
    seq(|s|, i requires 0 <= i < |s| => AsciiLower(s[i]))
  }

  /** Upper-casing a character does not depend on the case it was written in. */
  lemma UpperOfLower(c: char)
    ensures AsciiUpper(AsciiLower(c)) == AsciiUpper(c)
    ensures AsciiUpper(AsciiUpper(c)) == AsciiUpper(c)
  {
  }

  /** Case-insensitive equality of two strings of the same length. */
  predicate EqualsIgnoreCase(a: string, b: string) {
    |a| == |b| && forall i :: 0 <= i < |a| ==> AsciiLower(a[i]) == AsciiLower(b[i])
  }

  /** What `/^prefix/i.test(s)` decides for an ASCII `prefix`. */
  predicate StartsWithIgnoreCase(s: string, prefix: string) {
    |prefix| <= |s| && EqualsIgnoreCase(s[..|prefix|], prefix)
  }

  /** What `/sub/i.test(s)` decides for an ASCII `sub`. */
  predicate ContainsIgnoreCase(s: string, sub: string) {
    exists k: nat | k <= |s| :: MatchesAt(s, k, sub)
  }

  /** `sub` occurs in `s` at index `k`, ignoring ASCII case. */
  predicate MatchesAt(s: string, k: nat, sub: string) {
    k + |sub| <= |s| && EqualsIgnoreCase(s[k..k + |sub|], sub)
  }

  // ---------------------------------------------------------------------------
  // Splitting on a separator element, and joining back

  /** Index of the first `sep` in `s`. */
  function IndexOf<T(==)>(s: seq<T>, sep: T): (i: nat)
    requires sep in s
    ensures i < |s| && s[i] == sep && sep !in s[..i]
  {
    if s[0] == sep then 0 else 1 + IndexOf(s[1..], sep)
  }

  /** `s.split(sep)` (JavaScript `String.prototype.split` with a one-character string, Rust `str::split`
      with a `char`): the maximal separator-free pieces, an empty piece on either side of a separator at an end. */
  function SplitOn<T(==)>(s: seq<T>, sep: T): (parts: seq<seq<T>>)
    ensures |parts| >= 1
    ensures forall k :: 0 <= k < |parts| ==> sep !in parts[k]
    decreases |s|
  {
    if sep !in s then [s]
    else
      var i := IndexOf(s, sep);
      [s[..i]] + SplitOn(s[i + 1..], sep)
  }

  /** `parts.join(sep)`. */
  function Join<T>(parts: seq<seq<T>>, sep: seq<T>): seq<T> {
    if |parts| == 0 then []
    else if |parts| == 1 then parts[0]
    else parts[0] + sep + Join(parts[1..], sep)
  }

  /** Joining a piece in front of a non-empty list puts the separator between them. */
  lemma JoinFront<T>(a: seq<T>, parts: seq<seq<T>>, sep: seq<T>)
    requires |parts| >= 1
    ensures Join([a] + parts, sep) == a + sep + Join(parts, sep)
  {
    assert ([a] + parts)[1..] == parts;
  }

  /** Splitting and joining with the same separator gives back the original string. */
  lemma {:induction false} JoinSplit<T>(s: seq<T>, sep: T)
    ensures Join(SplitOn(s, sep), [sep]) == s
    decreases |s|
  {
    if sep in s {
      var i := IndexOf(s, sep);
      var rest := SplitOn(s[i + 1..], sep);
      assert SplitOn(s, sep) == [s[..i]] + rest;
      JoinFront(s[..i], rest, [sep]);
      JoinSplit(s[i + 1..], sep);
      assert s == s[..i] + [sep] + s[i + 1..];
    }
  }

  /** Splitting a separator-free piece followed by the separator yields that piece, then the rest's pieces. */
  lemma SplitOnPiece<T>(a: seq<T>, sep: T, b: seq<T>)
    requires sep !in a
    ensures SplitOn(a + [sep] + b, sep) == [a] + SplitOn(b, sep)
  {
    var s := a + [sep] + b;
    assert s[|a|] == sep;
    var i := IndexOf(s, sep);
    assert s[..|a|] == a;
    assert i == |a|;
    assert s[i + 1..] == b;
  }

  /** Joining separator-free pieces and splitting again gives back the pieces. */
  lemma {:induction false} SplitJoin<T>(parts: seq<seq<T>>, sep: T)
    requires |parts| >= 1
    requires forall k :: 0 <= k < |parts| ==> sep !in parts[k]
    ensures SplitOn(Join(parts, [sep]), sep) == parts
  {
    if |parts| > 1 {
      SplitOnPiece(parts[0], sep, Join(parts[1..], [sep]));
      SplitJoin(parts[1..], sep);
      assert parts == [parts[0]] + parts[1..];
    }
  }

  // ---------------------------------------------------------------------------
  // Splitting on runs of whitespace: `s.split(/\s+/)`

  /** Where the last whitespace-free piece of `s` starts: just after its last whitespace character, or 0
      when it has none. */
  function LastPieceStart(s: string): (i: nat)
    ensures i <= |s|
    ensures forall k :: i <= k < |s| ==> !IsJsWhitespace(s[k])
    ensures i > 0 ==> IsJsWhitespace(s[i - 1])
  {
    if s == [] then 0
    else if IsJsWhitespace(s[|s| - 1]) then |s|
    else LastPieceStart(s[..|s| - 1])
  }

  /** Where the run of whitespace that ends just before `j` starts. */
  function RunStart(s: string, j: nat): (i: nat)
    requires j <= |s|
    ensures i <= j
    ensures j > 0 && IsJsWhitespace(s[j - 1]) ==> i < j
    ensures forall k :: i <= k < j ==> IsJsWhitespace(s[k])
    ensures i == 0 || !IsJsWhitespace(s[i - 1])
  {
    if j > 0 && IsJsWhitespace(s[j - 1]) then RunStart(s, j - 1) else j
  }

  /** `s.split(/\s+/)`: the pieces between maximal runs of whitespace; a leading or trailing run gives an
      empty first or last piece. The last piece is the part after the last whitespace character, and
      there is more than one piece exactly when there is whitespace. */
  function SplitWhitespace(s: string): (parts: seq<string>)
    ensures |parts| >= 1
    ensures parts[|parts| - 1] == s[LastPieceStart(s)..]
    ensures |parts| == 1 <==> !HasWhitespace(s)
    decreases |s|
  {
    var e := LastPieceStart(s);
    if e == 0 then [s]
    else SplitWhitespace(s[..RunStart(s, e)]) + [s[e..]]
  }
}
