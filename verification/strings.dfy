/**
 * The JavaScript string operations the model needs: `String.prototype.trim`,
 * `split(' ')` and `toUpperCase` (on ASCII letters only).
 */
module Strings {

  /**
   * The characters JavaScript's `trim` removes and the regular-expression
   * class `\s` matches: the WhiteSpace and LineTerminator code points of
   * ECMAScript.
   */
  predicate IsWhitespace(c: char)
  {
    c == '\t' || c == '\n' || c == '\U{000B}' || c == '\U{000C}' || c == '\r'
    || c == ' ' || c == '\U{00A0}' || c == '\U{1680}'
    || ('\U{2000}' <= c <= '\U{200A}')
    || c == '\U{2028}' || c == '\U{2029}' || c == '\U{202F}' || c == '\U{205F}'
    || c == '\U{3000}' || c == '\U{FEFF}'
  }

  /** Drop leading whitespace. */
  function TrimStart(s: string): (r: string)
    ensures |r| <= |s| && r == s[|s| - |r|..]
    ensures |r| > 0 ==> !IsWhitespace(r[0])
    ensures forall i :: 0 <= i < |s| - |r| ==> IsWhitespace(s[i])
  {
    if |s| > 0 && IsWhitespace(s[0]) then TrimStart(s[1..]) else s
  }

  /** Drop trailing whitespace. */
  function TrimEnd(s: string): (r: string)
    ensures |r| <= |s| && r == s[..|r|]
    ensures |r| > 0 ==> !IsWhitespace(r[|r| - 1])
    ensures forall i :: |r| <= i < |s| ==> IsWhitespace(s[i])
  {
    if |s| > 0 && IsWhitespace(s[|s| - 1]) then TrimEnd(s[..|s| - 1]) else s
  }

  /**
   * `r` is the slice of `s` starting at `i`, and everything outside it is
   * whitespace.
   */
  predicate CutAt(s: string, r: string, i: int)
  {
    0 <= i <= |s| - |r| && r == s[i..i + |r|]
    && (forall k :: 0 <= k < i ==> IsWhitespace(s[k]))
    && (forall k :: i + |r| <= k < |s| ==> IsWhitespace(s[k]))
  }

  /**
   * `s.trim()`: the middle slice of `s` that neither starts nor ends with
   * whitespace, everything cut off being whitespace.
   */
  function Trim(s: string): (r: string)
    ensures exists i :: CutAt(s, r, i)
    ensures |r| > 0 ==> !IsWhitespace(r[0]) && !IsWhitespace(r[|r| - 1])
  {
    var t := TrimStart(s);
    var r := TrimEnd(t);
    var i := |s| - |t|;
    assert CutAt(s, r, i);
    r
  }

  /** Trimming is idempotent. */
  lemma TrimIdempotent(s: string)
    ensures Trim(Trim(s)) == Trim(s)
  {
    var r := Trim(s);
    if |r| > 0 {
      assert TrimStart(r) == r;
      assert TrimEnd(r) == r;
    }
  }

  /** A trimmed string is empty iff the input is empty or all whitespace. */
  lemma TrimEmpty(s: string)
    ensures Trim(s) == [] <==> forall k :: 0 <= k < |s| ==> IsWhitespace(s[k])
  {
    var r := Trim(s);
    if r != [] {
      var i :| CutAt(s, r, i);
      assert s[i] == r[0];
    }
  }

  /** `toUpperCase` on ASCII letters; other characters are kept. */
  function UpperChar(c: char): (r: char)
    ensures 'a' <= c <= 'z' ==> r as int == c as int - 32
    ensures !('a' <= c <= 'z') ==> r == c
  {
    if 'a' <= c <= 'z' then (c as int - 32) as char else c
  }

  function Upper(s: string): (r: string)
    ensures |r| == |s|
    ensures forall i :: 0 <= i < |s| ==> r[i] == UpperChar(s[i])
  {
    seq(|s|, i requires 0 <= i < |s| => UpperChar(s[i]))
  }

  /** `pieces.join(sep)`: the pieces with one separator between neighbours. */
  function Join(pieces: seq<string>, sep: char): string
  {
    if |pieces| == 0 then []
    else if |pieces| == 1 then pieces[0]
    else pieces[0] + [sep] + Join(pieces[1..], sep)
  }

  /**
   * `s.split(sep)` for a single-character separator: the pieces hold no
   * separator, and `SplitJoin` shows they join back to `s`, so they are
   * exactly the runs between separators.
   */
  function Split(s: string, sep: char): (r: seq<string>)
    ensures |r| >= 1
    ensures forall i :: 0 <= i < |r| ==> sep !in r[i]
    ensures |r| == 1 <==> sep !in s
    ensures |r| == 1 ==> r[0] == s
  {
    if |s| == 0 then [[]]
    else
      var rest := Split(s[1..], sep);
      assert sep in s <==> s[0] == sep || sep in s[1..] by {
        assert s == [s[0]] + s[1..];
      }
      if s[0] == sep then [[]] + rest
      else [[s[0]] + rest[0]] + rest[1..]
  }

  /** Joining the pieces with the separator gives back the text. */
  lemma {:induction false} SplitJoin(s: string, sep: char)
    ensures Join(Split(s, sep), sep) == s
  {
    if |s| > 0 {
      var rest := Split(s[1..], sep);
      SplitJoin(s[1..], sep);
      assert s == [s[0]] + s[1..];
      if s[0] == sep {
        assert ([[]] + rest)[1..] == rest;
      } else if |rest| > 1 {
        var r := [[s[0]] + rest[0]] + rest[1..];
        assert r[1..] == rest[1..];
        assert Join(rest, sep) == rest[0] + [sep] + Join(rest[1..], sep);
      }
    }
  }

  /** The first piece is the text before the first separator. */
  lemma {:induction false} SplitFirst(s: string, sep: char, k: nat)
    requires k < |s| && s[k] == sep
    requires forall j :: 0 <= j < k ==> s[j] != sep
    ensures Split(s, sep)[0] == s[..k]
  {
    if k > 0 {
      SplitFirst(s[1..], sep, k - 1);
    }
  }

  /** The last piece is the text after the last separator. */
  lemma {:induction false} SplitLast(s: string, sep: char, k: nat)
    requires k < |s| && s[k] == sep
    requires forall j :: k < j < |s| ==> s[j] != sep
    ensures Split(s, sep)[|Split(s, sep)| - 1] == s[k + 1..]
  {
    var rest := Split(s[1..], sep);
    if k == 0 {
      assert sep !in s[1..];
    } else {
      SplitLast(s[1..], sep, k - 1);
      assert s[1..][k..] == s[k + 1..];
    }
  }
}
