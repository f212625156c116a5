/** Character and string operations that the matching engine takes from
    Python's `str`: lower-casing, substring search, `strip()` and `split()`. */
module Text {

  /** `str.isspace()` for one character: the characters `str.strip()` removes. */
  predicate IsSpace(c: char) {
    || c == ' '
    || ('\t' <= c <= '\r')
    || ('\U{1c}' <= c <= '\U{1f}')
    || c == '\U{85}' || c == '\U{a0}' || c == '\U{1680}'
    || ('\U{2000}' <= c <= '\U{200a}')
    || c == '\U{2028}' || c == '\U{2029}' || c == '\U{202f}' || c == '\U{205f}' || c == '\U{3000}'
  }

  /** Lower-casing of one character, restricted to ASCII letters. */
  function LowerChar(c: char): char {
    if 'A' <= c <= 'Z' then (c as int - 'A' as int + 'a' as int) as char else c
  }

  /** `s.lower()` on ASCII letters: each capital becomes its small letter,
      every other character is kept, and no capital is left. */
  function Lower(s: string): (r: string)
    ensures |r| == |s|
    ensures forall k :: 0 <= k < |s| && 'A' <= s[k] <= 'Z' ==> r[k] as int == s[k] as int + 32
    ensures forall k :: 0 <= k < |s| && !('A' <= s[k] <= 'Z') ==> r[k] == s[k]
    ensures forall k :: 0 <= k < |r| ==> !('A' <= r[k] <= 'Z')
  {
    seq(|s|, i requires 0 <= i < |s| => LowerChar(s[i]))
  }

  /** Lower-casing twice is lower-casing once. */
  lemma LowerIdempotent(s: string)
    ensures Lower(Lower(s)) == Lower(s)
  {
    var once := Lower(s);
    forall k | 0 <= k < |s| ensures Lower(once)[k] == once[k] {
      assert !('A' <= once[k] <= 'Z');
    }
  }

  /** `needle` occurs in `hay` starting at index `i`. */
  ghost predicate OccursAt(needle: string, hay: string, i: int) {
    0 <= i && i + |needle| <= |hay| && hay[i..i + |needle|] == needle
  }

  /** Python's `needle in hay` for strings: a prefix of `hay` or of one of its suffixes. */
  function IsSubstring(needle: string, hay: string): (r: bool)
    ensures needle <= hay ==> r
    ensures r ==> |needle| <= |hay|
    decreases |hay|
  {
    needle <= hay || (|hay| > 0 && IsSubstring(needle, hay[1..]))
  }

  /** The search agrees with the definition by position: `needle in hay` holds
      exactly when some window of `hay` equals `needle`. */
  lemma {:induction false} IsSubstringIffOccurs(needle: string, hay: string)
    ensures IsSubstring(needle, hay) <==> exists i :: OccursAt(needle, hay, i)
    decreases |hay|
  {
    if needle <= hay {
      assert OccursAt(needle, hay, 0);
    } else if |hay| > 0 {
      IsSubstringIffOccurs(needle, hay[1..]);
      if exists i :: OccursAt(needle, hay[1..], i) {
        var i :| OccursAt(needle, hay[1..], i);
        assert hay[1..][i..i + |needle|] == hay[i + 1..i + 1 + |needle|];
        assert OccursAt(needle, hay, i + 1);
      }
      if exists i :: OccursAt(needle, hay, i) {
        var i :| OccursAt(needle, hay, i);
        assert i != 0;
        assert hay[1..][i - 1..i - 1 + |needle|] == hay[i..i + |needle|];
        assert OccursAt(needle, hay[1..], i - 1);
      }
    }
  }

  /** `s.lstrip()`: the suffix left after dropping leading whitespace. */
  function TrimStart(s: string): (r: string)
    ensures |r| <= |s| && r == s[|s| - |r|..]
    ensures forall k :: 0 <= k < |s| - |r| ==> IsSpace(s[k])
    ensures r == [] || !IsSpace(r[0])
  {
    if |s| > 0 && IsSpace(s[0]) then TrimStart(s[1..]) else s
  }

  /** `s.rstrip()`: the prefix left after dropping trailing whitespace. */
  function TrimEnd(s: string): (r: string)
    ensures |r| <= |s| && r == s[..|r|]
    ensures forall k :: |r| <= k < |s| ==> IsSpace(s[k])
    ensures r == [] || !IsSpace(r[|r| - 1])
  {
    if |s| > 0 && IsSpace(s[|s| - 1]) then TrimEnd(s[..|s| - 1]) else s
  }

  /** `s.strip()`: empty exactly when `s` is all whitespace, otherwise a window
      of `s` that neither starts nor ends with whitespace, with only
      whitespace before and after it. */
  function Strip(s: string): (r: string)
    ensures r == [] <==> forall k :: 0 <= k < |s| ==> IsSpace(s[k])
    ensures r != [] ==> !IsSpace(r[0]) && !IsSpace(r[|r| - 1])
    ensures exists i :: StrippedAt(r, s, i)
  {
    TrimBothWindow(s);
    TrimEnd(TrimStart(s))
  }

  /** Trimming both ends leaves a window with only whitespace around it. */
  lemma TrimBothWindow(s: string)
    ensures StrippedAt(TrimEnd(TrimStart(s)), s, |s| - |TrimStart(s)|)
  {
    var t := TrimStart(s);
    WindowOfSuffix(s, t, TrimEnd(t), |s| - |t|);
  }

  /** A prefix `r` of the suffix `t` of `s` at `i` is the window of `s` at
      `i`, and what follows it in `t` follows it in `s`. */
  lemma WindowOfSuffix(s: string, t: string, r: string, i: int)
    requires 0 <= i <= |s| && t == s[i..] && |r| <= |t| && r == t[..|r|]
    requires forall k :: |r| <= k < |t| ==> IsSpace(t[k])
    ensures OccursAt(r, s, i)
    ensures forall k :: i + |r| <= k < |s| ==> IsSpace(s[k])
  {
    assert s[i..i + |r|] == t[..|r|];
    forall k | i + |r| <= k < |s| ensures IsSpace(s[k]) {
      assert t[k - i] == s[k];
    }
  }

  /** `r` is the window of `s` at `i`, and only whitespace lies around it. */
  ghost predicate StrippedAt(r: string, s: string, i: int) {
    && OccursAt(r, s, i)
    && (forall k :: 0 <= k < i ==> IsSpace(s[k]))
    && (forall k :: i + |r| <= k < |s| ==> IsSpace(s[k]))
  }

  /** `s.split(sep)`: the pieces between separators, at least one, none
      containing the separator, the first a prefix of `s`. */
  function Split(s: string, sep: char): (r: seq<string>)
    ensures |r| >= 1
    ensures forall k :: 0 <= k < |r| ==> sep !in r[k]
    ensures r[0] <= s
  {
    if |s| == 0 then [""]
    else
      var rest := Split(s[1..], sep);
      if s[0] == sep then [""] + rest
      else [[s[0]] + rest[0]] + rest[1..]
  }

  /** `sep.join(parts)`, the inverse of `Split`. */
  function Join(parts: seq<string>, sep: char): string {
    if |parts| == 0 then ""
    else if |parts| == 1 then parts[0]
    else parts[0] + [sep] + Join(parts[1..], sep)
  }

  /** Splitting loses nothing: joining the pieces gives back the text. */
  lemma {:induction false} JoinSplit(s: string, sep: char)
    ensures Join(Split(s, sep), sep) == s
  {
    if |s| > 0 {
      var rest := Split(s[1..], sep);
      JoinSplit(s[1..], sep);
      if s[0] == sep {
        assert ([""] + rest)[1..] == rest;
      } else {
        var parts := [[s[0]] + rest[0]] + rest[1..];
        if |rest| > 1 {
          assert parts[1..] == rest[1..];
        }
      }
    }
  }

  /** A character other than the separator is in the text exactly when it is
      in one of the pieces. */
  lemma {:induction false} SplitKeepsChars(s: string, sep: char, c: char)
    requires c != sep
    ensures c in s <==> exists k :: 0 <= k < |Split(s, sep)| && c in Split(s, sep)[k]
  {
    if |s| > 0 {
      SplitKeepsChars(s[1..], sep, c);
      if s[0] == sep {
        SplitKeepsCharsAtSep(s, sep, c);
      } else {
        SplitKeepsCharsInPiece(s, sep, c);
      }
    }
  }

  /** The step of `SplitKeepsChars` when the text starts with the separator. */
  lemma SplitKeepsCharsAtSep(s: string, sep: char, c: char)
    requires c != sep && |s| > 0 && s[0] == sep
    requires c in s[1..] <==> exists k :: 0 <= k < |Split(s[1..], sep)| && c in Split(s[1..], sep)[k]
    ensures c in s <==> exists k :: 0 <= k < |Split(s, sep)| && c in Split(s, sep)[k]
  {
    var rest := Split(s[1..], sep);
    var r := Split(s, sep);
    assert r == [""] + rest;
    assert s == [s[0]] + s[1..];
    if c in s {
      assert c in s[1..];
      var k :| 0 <= k < |rest| && c in rest[k];
      assert r[k + 1] == rest[k];
    }
    if exists k :: 0 <= k < |r| && c in r[k] {
      var k :| 0 <= k < |r| && c in r[k];
      assert r[k] == rest[k - 1];
      assert 0 <= k - 1 < |Split(s[1..], sep)| && c in Split(s[1..], sep)[k - 1];
    }
  }

  /** The step of `SplitKeepsChars` when the text starts with another
      character. */
  lemma SplitKeepsCharsInPiece(s: string, sep: char, c: char)
    requires c != sep && |s| > 0 && s[0] != sep
    requires c in s[1..] <==> exists k :: 0 <= k < |Split(s[1..], sep)| && c in Split(s[1..], sep)[k]
    ensures c in s <==> exists k :: 0 <= k < |Split(s, sep)| && c in Split(s, sep)[k]
  {
    var rest := Split(s[1..], sep);
    var r := Split(s, sep);
    assert r[0] == [s[0]] + rest[0];
    assert forall k :: 1 <= k < |r| ==> r[k] == rest[k];
    assert s == [s[0]] + s[1..];
    if c in s {
      if c == s[0] {
        assert c in r[0];
      } else {
        assert c in s[1..];
        var k :| 0 <= k < |rest| && c in rest[k];
        assert c in r[k];
      }
    }
    if exists k :: 0 <= k < |r| && c in r[k] {
      var k :| 0 <= k < |r| && c in r[k];
      if k == 0 && c == s[0] {
        assert s[0] in s;
        assert c in s;
        assert 0 <= k < |Split(s, sep)| && c in Split(s, sep)[k];
      } else {
        if k == 0 {
          assert c in [s[0]] + rest[0];
        } else {
          assert r[k] == rest[k];
        }
        assert 0 <= k < |Split(s[1..], sep)| && c in Split(s[1..], sep)[k];
        assert c in s[1..];
      }
    }
  }

  /** Every piece of `s.split(sep)` is a window of `s`. */
  lemma {:induction false} SplitPieceOccurs(s: string, sep: char, k: nat)
    requires k < |Split(s, sep)|
    ensures exists i :: OccursAt(Split(s, sep)[k], s, i)
  {
    if k == 0 {
      assert OccursAt(Split(s, sep)[0], s, 0);
    } else {
      var rest := Split(s[1..], sep);
      var r := Split(s, sep);
      var k' := if s[0] == sep then k - 1 else k;
      assert r[k] == rest[k'];
      SplitPieceOccurs(s[1..], sep, k');
      var i :| OccursAt(rest[k'], s[1..], i);
      assert s[1..][i..i + |rest[k']|] == s[i + 1..i + 1 + |rest[k']|];
      assert OccursAt(r[k], s, i + 1);
    }
  }

  /** A window of a window is a window. */
  lemma OccursTrans(a: string, b: string, c: string, i: int, j: int)
    requires OccursAt(a, b, i) && OccursAt(b, c, j)
    ensures OccursAt(a, c, i + j)
  {
    assert b == c[j..j + |b|] && a == b[i..i + |a|];
    forall k | 0 <= k < |a| ensures a[k] == c[i + j + k] {
      assert a[k] == b[i + k] == c[j + i + k];
    }
  }

  /** Every character of a window is a character of the text. */
  lemma OccursChars(a: string, b: string, i: int)
    requires OccursAt(a, b, i)
    ensures forall ch :: ch in a ==> ch in b
  {
    forall ch | ch in a ensures ch in b {
      var k :| 0 <= k < |a| && a[k] == ch;
      assert b[i + k] == ch;
    }
  }
}
