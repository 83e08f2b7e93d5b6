/** Reading delimited fields back out of a string. */
module Text {

  /** The characters of `s` before the first `c` (all of `s` when there is none). */
  function TakeUntil(s: string, c: char): (r: string)
    ensures |r| <= |s| && r == s[..|r|]
    ensures c !in r
  {
    if s == [] || s[0] == c then [] else [s[0]] + TakeUntil(s[1..], c)
  }

  /** The characters of `s` after the first `c` (empty when there is none). */
  function DropUntil(s: string, c: char): (r: string)
    ensures s != [] ==> |r| < |s|
  {
    if s == [] then [] else if s[0] == c then s[1..] else DropUntil(s[1..], c)
  }

  /** A field `p` free of the delimiter, followed by the delimiter, is read back exactly. */
  lemma {:induction false} FieldReadBack(p: string, c: char, rest: string)
    requires c !in p
    ensures TakeUntil(p + [c] + rest, c) == p
    ensures DropUntil(p + [c] + rest, c) == rest
  {
    if p != [] {
      assert (p + [c] + rest)[1..] == p[1..] + [c] + rest;
      FieldReadBack(p[1..], c, rest);
    } else {
      assert (p + [c] + rest) == [c] + rest;
    }
  }

  /** The fields of `s`, each of them ended by one `c`. */
  function SplitTerminated(s: string, c: char): seq<string>
    decreases |s|
  {
    if s == [] then [] else [TakeUntil(s, c)] + SplitTerminated(DropUntil(s, c), c)
  }
}
