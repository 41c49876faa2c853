/**
 * The PHP string built-ins the commands and the guard resolver rely on:
 * boolean conversion, `empty()`, `trim()` and `explode()`.
 */
module PhpStrings {
  import opened Wrappers

  /** PHP's conversion of a string to bool: only "" and "0" are false. */
  predicate Truthy(s: string) {
    s != "" && s != "0"
  }

  /** PHP's `empty()` on a string-or-null value: null, "" and "0". */
  predicate Empty(s: Option<string>) {
    s.None? || !Truthy(s.value)
  }

  /** The characters `trim()` strips by default: space, \t, \n, \r, NUL and vertical tab. */
  predicate IsTrimmable(c: char) {
    c == ' ' || c == '\t' || c == '\n' || c == '\r' || c == '\0' || c == '\U{000B}'
  }

  function TrimLeft(s: string): (r: string)
    ensures |r| <= |s| && r == s[|s| - |r|..]
    ensures forall i :: 0 <= i < |s| - |r| ==> IsTrimmable(s[i])
    ensures r == [] || !IsTrimmable(r[0])
    decreases |s|
  {
    if s != [] && IsTrimmable(s[0]) then TrimLeft(s[1..]) else s
  }

  function TrimRight(s: string): (r: string)
    ensures |r| <= |s| && r == s[..|r|]
    ensures forall i :: |r| <= i < |s| ==> IsTrimmable(s[i])
    ensures r == [] || !IsTrimmable(r[|r| - 1])
    decreases |s|
  {
    if s != [] && IsTrimmable(s[|s| - 1]) then TrimRight(s[..|s| - 1]) else s
  }

  /**
   * PHP's `trim()`: the result is the part of `s` left after removing the
   * trimmable characters at both ends, and neither of its ends is trimmable.
   */
  function Trim(s: string): (r: string)
    ensures exists i, j :: 0 <= i <= j <= |s| && r == s[i..j]
                          && (forall k :: 0 <= k < i ==> IsTrimmable(s[k]))
                          && (forall k :: j <= k < |s| ==> IsTrimmable(s[k]))
    ensures r == [] || (!IsTrimmable(r[0]) && !IsTrimmable(r[|r| - 1]))
  {
    var l := TrimLeft(s);
    var r := TrimRight(l);
    assert r == s[|s| - |l|..|s| - |l| + |r|];
    r
  }

  /** Trimming adds no character. */
  lemma {:induction false} TrimKeepsCharacters(s: string, c: char)
    ensures c in Trim(s) ==> c in s
  {
    var l := TrimLeft(s);
    var r := TrimRight(l);
    if c in r {
      var k :| 0 <= k < |r| && r[k] == c;
      assert l[k] == c;
      assert s[|s| - |l| + k] == c;
    }
  }

  /** Trimming a trimmed string changes nothing. */
  lemma {:induction false} TrimIdempotent(s: string)
    ensures Trim(Trim(s)) == Trim(s)
  {
    var t := Trim(s);
    assert TrimLeft(t) == t;
    assert TrimRight(t) == t;
  }

  /** The number of times `c` occurs in `s`. */
  function Occurrences(c: char, s: string): nat {
    if s == [] then 0 else (if s[0] == c then 1 else 0) + Occurrences(c, s[1..])
  }

  /**
   * PHP's `explode()` with a one-character separator: the pieces between
   * separators, empty pieces included. An empty string gives one empty piece.
   */
  function Explode(sep: char, s: string): (pieces: seq<string>)
    ensures |pieces| == Occurrences(sep, s) + 1
    ensures forall i :: 0 <= i < |pieces| ==> sep !in pieces[i]
    decreases |s|
  {
    if s == [] then [[]]
    else
      var rest := Explode(sep, s[1..]);
      if s[0] == sep then [[]] + rest
      else [[s[0]] + rest[0]] + rest[1..]
  }

  /** PHP's `implode()`: the pieces joined by the separator. */
  function Implode(sep: char, pieces: seq<string>): string {
    if pieces == [] then []
    else if |pieces| == 1 then pieces[0]
    else pieces[0] + [sep] + Implode(sep, pieces[1..])
  }

  /** Joining the pieces again gives back the exploded string. */
  lemma {:induction false} ImplodeExplode(sep: char, s: string)
    ensures Implode(sep, Explode(sep, s)) == s
    decreases |s|
  {
    if s != [] {
      ImplodeExplode(sep, s[1..]);
      var rest := Explode(sep, s[1..]);
      if s[0] == sep {
        assert [[]] + rest == [[]] + rest;
      } else if |rest| > 1 {
        assert ([[s[0]] + rest[0]] + rest[1..])[1..] == rest[1..];
        assert rest == [rest[0]] + rest[1..];
        assert Implode(sep, rest) == rest[0] + [sep] + Implode(sep, rest[1..]);
      }
    }
  }

  /** Exploding joined pieces that hold no separator gives back the pieces. */
  lemma {:induction false} ExplodeImplode(sep: char, pieces: seq<string>)
    requires |pieces| >= 1
    requires forall i :: 0 <= i < |pieces| ==> sep !in pieces[i]
    ensures Explode(sep, Implode(sep, pieces)) == pieces
    decreases |Implode(sep, pieces)|
  {
    if pieces[0] == [] {
      if |pieces| > 1 {
        assert Implode(sep, pieces) == [sep] + Implode(sep, pieces[1..]);
        ExplodeImplode(sep, pieces[1..]);
      }
    } else {
      var first := pieces[0];
      var shorter := [first[1..]] + pieces[1..];
      assert forall i :: 0 <= i < |shorter| ==> sep !in shorter[i] by {
        forall i | 0 <= i < |shorter| ensures sep !in shorter[i] {
          if i > 0 { assert shorter[i] == pieces[i]; }
        }
      }
      assert Implode(sep, pieces) == [first[0]] + Implode(sep, shorter) by {
        if |pieces| > 1 {
          assert shorter[1..] == pieces[1..];
        }
      }
      ExplodeImplode(sep, shorter);
      var s := Implode(sep, pieces);
      assert s[1..] == Implode(sep, shorter);
      assert first == [first[0]] + first[1..];
      assert first[0] != sep by { assert first[0] in first; }
    }
  }
}
