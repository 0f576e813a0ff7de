/** The few java.lang.String operations the build framework relies on, over `seq<char>`. */
module Strings {

  /** `s.startsWith(p)` */
  predicate StartsWith(s: string, p: string) {
    |p| <= |s| && s[..|p|] == p
  }

  /**
   * `String.toLowerCase()` on a one-character string, for ASCII under a locale
   * such as English: upper-case letters map to lower case, everything else is kept.
   */
  function ToLowerAscii(ch: char): (r: char)
    ensures 'A' <= ch <= 'Z' ==> 'a' <= r <= 'z'
    ensures !('A' <= ch <= 'Z') ==> r == ch
  {
    if 'A' <= ch <= 'Z' then (ch as int + 32) as char else ch
  }

  /** ASCII upper-casing, the inverse of `ToLowerAscii` used to state round trips. */
  function ToUpperAscii(ch: char): (r: char)
    ensures 'a' <= ch <= 'z' ==> 'A' <= r <= 'Z'
    ensures !('a' <= ch <= 'z') ==> r == ch
  {
    if 'a' <= ch <= 'z' then (ch as int - 32) as char else ch
  }

  lemma LowerOfUpper(ch: char)
    requires !('A' <= ch <= 'Z')
    ensures ToLowerAscii(ToUpperAscii(ch)) == ch
  {
  }

  /** Splits `s` at every occurrence of `c`, keeping every piece, empty ones included. */
  function SplitOn(s: string, c: char): (r: seq<string>)
    ensures |r| >= 1
    ensures forall i :: 0 <= i < |r| ==> c !in r[i]
  {
    if s == [] then [[]]
    else
      var rest := SplitOn(s[1..], c);
      if s[0] == c then [[]] + rest else [[s[0]] + rest[0]] + rest[1..]
  }

  /** Joins non-empty `parts` with the separator `c`. */
  function Join(parts: seq<string>, c: char): string
    requires |parts| >= 1
  {
    if |parts| == 1 then parts[0] else parts[0] + [c] + Join(parts[1..], c)
  }

  /** Drops the empty strings at the end of `xs`. */
  function DropTrailingEmpty(xs: seq<string>): (r: seq<string>)
    ensures r <= xs
    ensures r == [] || r[|r| - 1] != []
    ensures forall i :: |r| <= i < |xs| ==> xs[i] == []
  {
    if xs == [] then []
    else if xs[|xs| - 1] == [] then DropTrailingEmpty(xs[..|xs| - 1])
    else xs
  }

  /**
   * `s.split(String.valueOf(c))` for a separator that is not a regular-expression
   * metacharacter: an input without `c` gives the input itself, otherwise the
   * pieces between separators with the trailing empty pieces removed.
   */
  function JavaSplit(s: string, c: char): (r: seq<string>)
    ensures forall i :: 0 <= i < |r| ==> c !in r[i]
    ensures c !in s ==> r == [s]
    ensures c in s ==> r == [] || r[|r| - 1] != []
  {
    if c !in s then [s] else DropTrailingEmpty(SplitOn(s, c))
  }

  lemma SplitOnFree(u: string, c: char)
    requires c !in u
    ensures SplitOn(u, c) == [u]
  {
    if u != [] {
      SplitOnFree(u[1..], c);
      assert [u[0]] + u[1..] == u;
    }
  }

  /** A separator-free prefix followed by the separator becomes the first piece. */
  lemma {:induction false} SplitOnAfterPiece(u: string, c: char, w: string)
    requires c !in u
    ensures SplitOn(u + [c] + w, c) == [u] + SplitOn(w, c)
  {
    if u == [] {
      assert (u + [c] + w)[1..] == w;
    } else {
      SplitOnAfterPiece(u[1..], c, w);
      assert (u + [c] + w)[1..] == u[1..] + [c] + w;
      assert [u[0]] + u[1..] == u;
    }
  }

  /** Splitting undoes joining, whenever no part contains the separator. */
  lemma {:induction false} SplitJoin(parts: seq<string>, c: char)
    requires |parts| >= 1
    requires forall i :: 0 <= i < |parts| ==> c !in parts[i]
    ensures SplitOn(Join(parts, c), c) == parts
  {
    if |parts| == 1 {
      SplitOnFree(parts[0], c);
    } else {
      SplitJoin(parts[1..], c);
      SplitOnAfterPiece(parts[0], c, Join(parts[1..], c));
      assert [parts[0]] + parts[1..] == parts;
    }
  }

  /**
   * Java's split gives back the parts of a join exactly when the last part is
   * not empty (or there is only one part).
   */
  lemma JavaSplitJoin(parts: seq<string>, c: char)
    requires |parts| >= 1
    requires forall i :: 0 <= i < |parts| ==> c !in parts[i]
    requires |parts| == 1 || parts[|parts| - 1] != []
    ensures JavaSplit(Join(parts, c), c) == parts
  {
    SplitJoin(parts, c);
    if |parts| > 1 {
      var s := Join(parts, c);
      assert s[|parts[0]|] == c;
    }
  }

  /** Decimal rendering of a natural number, as string concatenation of an int does. */
  function NatToString(n: nat): (r: string)
    ensures |r| >= 1
    ensures forall i :: 0 <= i < |r| ==> '0' <= r[i] <= '9'
  {
    if n < 10 then [Digit(n)] else NatToString(n / 10) + [Digit(n % 10)]
  }

  function Digit(d: nat): (r: char)
    requires d < 10
    ensures '0' <= r <= '9'
  {
    ('0' as int + d) as char
  }

  /** `AbstractCollection.toString`: "[a, b, c]". */
  function ShowList(xs: seq<string>): string {
    "[" + (if xs == [] then "" else Join(JoinCommaParts(xs), ' ')) + "]"
  }

  /** Every element but the last followed by a comma, so that joining with a blank gives "a, b, c". */
  function JoinCommaParts(xs: seq<string>): (r: seq<string>)
    requires xs != []
    ensures |r| == |xs|
  {
    if |xs| == 1 then xs else [xs[0] + ","] + JoinCommaParts(xs[1..])
  }
}
