/** The tokenizer preProcession applies to a result's title and summary (adb/RelevanceFeedback.java:143-144):
    the text is lower-cased, then cut around every run of white space, punctuation and '|', the way
    java.util.regex.Pattern.split does it. */
module Tokenizer {

  /** White space as `\s` matches it under UNICODE_CHARACTER_CLASS (Unicode's White_Space property). */
  predicate IsSpace(c: char)
  {
    || c == ' ' || '\t' <= c <= '\r' || c == '\U{85}' || c == '\U{A0}' || c == '\U{1680}'
    || '\U{2000}' <= c <= '\U{200A}' || c == '\U{2028}' || c == '\U{2029}' || c == '\U{202F}'
    || c == '\U{205F}' || c == '\U{3000}'
  }

  /** The ASCII characters of Unicode's punctuation categories, which `\p{Punct}` matches under
      UNICODE_CHARACTER_CLASS ('$', '+', '<', '=', '>', '^', '`' and '~' are symbols, not punctuation). */
  predicate IsPunct(c: char)
  {
    || '!' <= c <= '#' || '%' <= c <= '*' || ',' <= c <= '/' || c == ':' || c == ';' || c == '?' || c == '@'
    || '[' <= c <= ']' || c == '_' || c == '{' || c == '}'
  }

  /** One character of the separator class `[\s\p{Punct}|]`. */
  predicate IsDelimiter(c: char)
  {
    IsSpace(c) || IsPunct(c) || c == '|'
  }

  /** Lower-casing of one character, for the ASCII letters. */
  function Lower(c: char): char
  {
    if 'A' <= c <= 'Z' then (c as int + 32) as char else c
  }

  /** String.toLowerCase, for the ASCII letters. */
  function LowerCase(s: string): (r: string)
    ensures |r| == |s|
  {
    seq(|s|, i requires 0 <= i < |s| => Lower(s[i]))
  }

  /** Lower-casing leaves no capital and keeps every separator where it was. */
  lemma LowerCaseKeepsSeparators(s: string)
    ensures forall i :: 0 <= i < |s| ==> !('A' <= LowerCase(s)[i] <= 'Z')
    ensures forall i :: 0 <= i < |s| ==> (IsDelimiter(LowerCase(s)[i]) <==> IsDelimiter(s[i]))
  {
  }

  /** `s` cut at every single separator: one piece more than there are separators, empty pieces
      included, and no piece holds a separator or a character `s` does not have. */
  function Pieces(s: string): (ps: seq<string>)
    ensures |ps| >= 1
  {
    if s == [] then [[]]
    else
      var rest := Pieces(s[1..]);
      if IsDelimiter(s[0]) then [[]] + rest else [[s[0]] + rest[0]] + rest[1..]
  }

  /** No piece holds a separator or a character `s` does not have. */
  lemma {:induction false} PiecesClean(s: string)
    ensures forall k, j :: 0 <= k < |Pieces(s)| && 0 <= j < |Pieces(s)[k]| ==>
              Pieces(s)[k][j] in s && !IsDelimiter(Pieces(s)[k][j])
  {
    if s != [] {
      PiecesClean(s[1..]);
    }
  }

  /** Whether `s` holds a separator. */
  function HasDelimiter(s: string): (b: bool)
    ensures b <==> exists i :: 0 <= i < |s| && IsDelimiter(s[i])
  {
    s != [] && (IsDelimiter(s[0]) || HasDelimiter(s[1..]))
  }

  /** The non-empty strings of `ps`, in order. */
  function NonEmpty(ps: seq<string>): (r: seq<string>)
    ensures |r| <= |ps|
    ensures forall k :: 0 <= k < |r| ==> r[k] != [] && r[k] in ps
  {
    if ps == [] then []
    else if ps[0] == [] then NonEmpty(ps[1..])
    else [ps[0]] + NonEmpty(ps[1..])
  }

  /** Pattern.split with the separator `[\s\p{Punct}|]+`: a text with no separator comes back whole;
      otherwise the strings between runs of separators, with a leading empty string when the text
      opens with a separator, and with the trailing empty strings removed. */
  function Split(s: string): (ts: seq<string>)
  {
    if !HasDelimiter(s) then [s]
    else
      var ps := Pieces(s);
      var rest := NonEmpty(ps[1..]);
      if ps[0] == [] && rest == [] then [] else [ps[0]] + rest
  }

  /** The tokens of a text: the split of its lower-cased form. */
  function Tokens(text: string): seq<string>
  {
    Split(LowerCase(text))
  }

  /** The strings of `ps`, one after another. */
  function Concat(ps: seq<string>): string
  {
    if ps == [] then [] else ps[0] + Concat(ps[1..])
  }

  /** The characters of `s` that are not separators, in order. */
  function Strip(s: string): string
  {
    if s == [] then []
    else if IsDelimiter(s[0]) then Strip(s[1..])
    else [s[0]] + Strip(s[1..])
  }

  /** Cutting loses exactly the separators: the pieces, put back together, are the text without them. */
  lemma {:induction false} PiecesConcat(s: string)
    ensures Concat(Pieces(s)) == Strip(s)
  {
    if s != [] {
      PiecesConcat(s[1..]);
      var rest := Pieces(s[1..]);
      if IsDelimiter(s[0]) {
        assert ([[]] + rest)[1..] == rest;
      } else {
        var ps := [[s[0]] + rest[0]] + rest[1..];
        assert ps[1..] == rest[1..];
        assert Concat(rest) == rest[0] + Concat(rest[1..]);
      }
    }
  }

  /** Dropping empty strings does not change their concatenation. */
  lemma {:induction false} NonEmptyConcat(ps: seq<string>)
    ensures Concat(NonEmpty(ps)) == Concat(ps)
  {
    if ps != [] {
      NonEmptyConcat(ps[1..]);
      if ps[0] != [] {
        assert ([ps[0]] + NonEmpty(ps[1..]))[1..] == NonEmpty(ps[1..]);
      }
    }
  }

  /** The tokens hold every non-separator character of the text, in order, and nothing else: no token
      holds a separator and only the first one may be empty. */
  lemma SplitSound(s: string)
    ensures Concat(Split(s)) == Strip(s)
    ensures forall k, j :: 0 <= k < |Split(s)| && 0 <= j < |Split(s)[k]| ==> !IsDelimiter(Split(s)[k][j])
    ensures forall k :: 0 < k < |Split(s)| ==> Split(s)[k] != []
  {
    if !HasDelimiter(s) {
      NoDelimiterStrip(s);
      assert Concat([s]) == s + Concat([]);
    } else {
      var ps := Pieces(s);
      PiecesClean(s);
      PiecesConcat(s);
      NonEmptyConcat(ps[1..]);
      assert Concat(ps) == ps[0] + Concat(ps[1..]);
      var kept := [ps[0]] + NonEmpty(ps[1..]);
      assert kept[1..] == NonEmpty(ps[1..]);
      assert Concat(kept) == ps[0] + Concat(kept[1..]);
      forall k, j | 0 <= k < |kept| && 0 <= j < |kept[k]|
        ensures !IsDelimiter(kept[k][j])
      {
        if k > 0 {
          var q := kept[k];
          assert q in ps[1..];
          var m :| 0 <= m < |ps[1..]| && ps[1..][m] == q;
          assert ps[m + 1] == q;
        }
      }
    }
  }

  /** A text without separators is its own stripped form. */
  lemma {:induction false} NoDelimiterStrip(s: string)
    requires forall i :: 0 <= i < |s| ==> !IsDelimiter(s[i])
    ensures Strip(s) == s
  {
    if s != [] {
      NoDelimiterStrip(s[1..]);
    }
  }

  /** A token `Split` can give back in any position: non-empty and free of separators. */
  predicate Clean(t: string)
  {
    t != [] && forall i :: 0 <= i < |t| ==> !IsDelimiter(t[i])
  }

  /** The tokens written out with one space between neighbours. */
  function JoinSpace(ts: seq<string>): string
    requires ts != []
  {
    if |ts| == 1 then ts[0] else ts[0] + " " + JoinSpace(ts[1..])
  }

  /** A separator-free prefix joins the first piece of what follows it. */
  lemma {:induction false} PiecesPrefix(t: string, r: string)
    requires forall i :: 0 <= i < |t| ==> !IsDelimiter(t[i])
    ensures Pieces(t + r) == [t + Pieces(r)[0]] + Pieces(r)[1..]
  {
    var ps := Pieces(r);
    if t == [] {
      assert t + r == r && t + ps[0] == ps[0];
      assert ps == [ps[0]] + ps[1..];
    } else {
      PiecesPrefix(t[1..], r);
      assert (t + r)[0] == t[0] && (t + r)[1..] == t[1..] + r;
      assert [t[0]] + (t[1..] + ps[0]) == t + ps[0];
    }
  }

  /** Cutting the joined tokens at every separator gives the tokens back. */
  lemma {:induction false} PiecesJoin(ts: seq<string>)
    requires ts != [] && forall k :: 0 <= k < |ts| ==> Clean(ts[k])
    ensures Pieces(JoinSpace(ts)) == ts
  {
    if |ts| == 1 {
      PiecesPrefix(ts[0], []);
      assert ts[0] + [] == ts[0];
    } else {
      var t, rest := ts[0], ts[1..];
      PiecesJoin(rest);
      var r := " " + JoinSpace(rest);
      assert r[1..] == JoinSpace(rest);
      PiecesPrefix(t, r);
      assert t + " " + JoinSpace(rest) == t + r;
      assert t + [] == t;
      assert ts == [t] + rest;
    }
  }

  /** A sequence of non-empty strings loses nothing to NonEmpty. */
  lemma {:induction false} NonEmptyKeeps(ps: seq<string>)
    requires forall k :: 0 <= k < |ps| ==> ps[k] != []
    ensures NonEmpty(ps) == ps
  {
    if ps != [] {
      NonEmptyKeeps(ps[1..]);
      assert ps == [ps[0]] + ps[1..];
    }
  }

  /** Split undoes JoinSpace: clean tokens written out with spaces between them split back into
      exactly those tokens, so Split cuts at every separator run and nowhere else. */
  lemma SplitJoin(ts: seq<string>)
    requires ts != [] && forall k :: 0 <= k < |ts| ==> Clean(ts[k])
    ensures Split(JoinSpace(ts)) == ts
  {
    var s := JoinSpace(ts);
    PiecesJoin(ts);
    if |ts| == 1 {
      assert !HasDelimiter(s);
    } else {
      JoinSpaceHasDelimiter(ts);
      NonEmptyKeeps(ts[1..]);
      var ps := Pieces(s);
      assert ps[0] == ts[0] && ps[1..] == ts[1..];
      assert Split(s) == [ts[0]] + ts[1..];
    }
  }

  /** Two or more tokens joined hold the space between the first two. */
  lemma JoinSpaceHasDelimiter(ts: seq<string>)
    requires |ts| >= 2
    ensures HasDelimiter(JoinSpace(ts))
  {
    var s, i, head := JoinSpace(ts), |ts[0]|, ts[0] + " ";
    assert s == head + JoinSpace(ts[1..]);
    assert head[i] == ' ';
    assert s[i] == head[i];
    DelimiterAt(s, i);
  }

  /** A text with a separator at position i has a separator. */
  lemma DelimiterAt(s: string, i: nat)
    requires i < |s| && s[i] == ' '
    ensures HasDelimiter(s)
  {
    assert IsDelimiter(s[i]);
  }

  /** Lower-casing changes nothing in a text without capitals. */
  lemma LowerCaseIdentity(s: string)
    requires forall i :: 0 <= i < |s| ==> !('A' <= s[i] <= 'Z')
    ensures LowerCase(s) == s
  {
  }

  /** Tokens undoes JoinSpace on clean lower-case tokens. */
  lemma TokensJoin(ts: seq<string>)
    requires ts != [] && forall k :: 0 <= k < |ts| ==> Clean(ts[k])
    requires forall k, j :: 0 <= k < |ts| && 0 <= j < |ts[k]| ==> !('A' <= ts[k][j] <= 'Z')
    ensures Tokens(JoinSpace(ts)) == ts
  {
    JoinSpaceLower(ts);
    SplitJoin(ts);
  }

  /** The joined form of lower-case tokens has no capitals. */
  lemma {:induction false} JoinSpaceLower(ts: seq<string>)
    requires ts != []
    requires forall k, j :: 0 <= k < |ts| && 0 <= j < |ts[k]| ==> !('A' <= ts[k][j] <= 'Z')
    ensures LowerCase(JoinSpace(ts)) == JoinSpace(ts)
  {
    if |ts| > 1 {
      JoinSpaceLower(ts[1..]);
    }
    LowerCaseIdentity(JoinSpace(ts));
  }

  /** Every token is lower-case and free of separators, and only the first one may be empty. */
  lemma TokensClean(text: string)
    ensures forall k, j :: 0 <= k < |Tokens(text)| && 0 <= j < |Tokens(text)[k]| ==>
              !IsDelimiter(Tokens(text)[k][j]) && !('A' <= Tokens(text)[k][j] <= 'Z')
    ensures forall k :: 0 < k < |Tokens(text)| ==> Tokens(text)[k] != []
  {
    var s := LowerCase(text);
    SplitSound(s);
    var ts := Split(s);
    forall k, j | 0 <= k < |ts| && 0 <= j < |ts[k]|
      ensures !('A' <= ts[k][j] <= 'Z')
    {
      if HasDelimiter(s) {
        var ps := Pieces(s);
        PiecesClean(s);
        LowerCaseKeepsSeparators(text);
        if k == 0 {
          assert ts[k] == ps[0];
        } else {
          assert ts[k] in ps[1..];
          var m :| 0 <= m < |ps[1..]| && ps[1..][m] == ts[k];
          assert ps[m + 1] == ts[k];
        }
      }
    }
  }
}
