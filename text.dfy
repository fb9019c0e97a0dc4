/**
 * The JavaScript string operations the booking assistant relies on:
 * `toLowerCase`/`toUpperCase` (ASCII letters only), `includes`,
 * `split(" ")`, `join(sep)` and `trim`.
 */
module Text {

  // ---------------------------------------------------------------- case

  function ToLowerChar(c: char): char
  {
    if 'A' <= c <= 'Z' then (c as int + 32) as char else c
  }

  function ToUpperChar(c: char): char
  {
    if 'a' <= c <= 'z' then (c as int - 32) as char else c
  }

  predicate IsUpperAscii(c: char)
  {
    'A' <= c <= 'Z'
  }

  /** `s.toLowerCase()` restricted to ASCII letters. */
  function ToLower(s: string): (r: string)
    ensures |r| == |s|
    ensures forall i :: 0 <= i < |s| ==> !IsUpperAscii(r[i])
    ensures forall i :: 0 <= i < |s| && !IsUpperAscii(s[i]) ==> r[i] == s[i]
    ensures forall i :: 0 <= i < |s| && IsUpperAscii(s[i]) ==> r[i] as int == s[i] as int + 32
  {
    seq(|s|, i requires 0 <= i < |s| => ToLowerChar(s[i]))
  }

  /** Lowering a string twice changes nothing more. */
  lemma ToLowerIdempotent(s: string)
    ensures ToLower(ToLower(s)) == ToLower(s)
  {
  }

  // ---------------------------------------------------------------- includes

  /** `haystack.includes(needle)`: the needle occurs at some position. */
  predicate Contains(haystack: string, needle: string)
  {
    exists i :: 0 <= i <= |haystack| && needle <= haystack[i..]
  }

  /** Executable `includes`, scanning from the left. */
  function Includes(haystack: string, needle: string): (r: bool)
    ensures r <==> Contains(haystack, needle)
    decreases |haystack|
  {
    if needle <= haystack then
      assert needle <= haystack[0..];
      true
    else if |haystack| == 0 then
      false
    else
      var rest := Includes(haystack[1..], needle);
      if rest then
        var i :| 0 <= i <= |haystack| - 1 && needle <= haystack[1..][i..];
        assert haystack[1..][i..] == haystack[i + 1..];
        true
      else
        assert forall i :: 1 <= i <= |haystack| ==> haystack[i..] == haystack[1..][i - 1..];
        false
  }

  /** A part of a joined sequence is contained in the joined string. */
  lemma {:induction false} JoinContainsPart(parts: seq<string>, sep: string, k: nat)
    requires k < |parts|
    ensures Contains(Join(parts, sep), parts[k])
  {
    var j := Join(parts, sep);
    if |parts| == 1 {
      assert parts[k] <= j[0..];
    } else if k == 0 {
      assert j == parts[0] + (sep + Join(parts[1..], sep));
      assert parts[0] <= j[0..];
    } else {
      JoinContainsPart(parts[1..], sep, k - 1);
      var rest := Join(parts[1..], sep);
      var i :| 0 <= i <= |rest| && parts[k] <= rest[i..];
      var off := |parts[0]| + |sep|;
      assert j == (parts[0] + sep) + rest;
      assert j[off + i..] == rest[i..];
      assert parts[k] <= j[off + i..];
    }
  }

  // ---------------------------------------------------------------- join and split

  /** `parts.join(sep)`. */
  function Join(parts: seq<string>, sep: string): string
    decreases |parts|
  {
    if |parts| == 0 then ""
    else if |parts| == 1 then parts[0]
    else parts[0] + sep + Join(parts[1..], sep)
  }

  /** Every character of a joined string comes from a part or from a separator. */
  lemma {:induction false} JoinChars(parts: seq<string>, sep: string, P: char -> bool)
    requires forall k, i :: 0 <= k < |parts| && 0 <= i < |parts[k]| ==> P(parts[k][i])
    requires forall i :: 0 <= i < |sep| ==> P(sep[i])
    ensures forall i :: 0 <= i < |Join(parts, sep)| ==> P(Join(parts, sep)[i])
    decreases |parts|
  {
    if |parts| > 1 {
      JoinChars(parts[1..], sep, P);
      var rest := Join(parts[1..], sep);
      assert Join(parts, sep) == parts[0] + sep + rest;
      forall i | 0 <= i < |Join(parts, sep)|
        ensures P(Join(parts, sep)[i])
      {
        if i < |parts[0]| {
          assert Join(parts, sep)[i] == parts[0][i];
        } else if i < |parts[0]| + |sep| {
          assert Join(parts, sep)[i] == sep[i - |parts[0]|];
        } else {
          assert Join(parts, sep)[i] == rest[i - |parts[0]| - |sep|];
        }
      }
    } else if |parts| == 1 {
      assert Join(parts, sep) == parts[0];
    }
  }

  /** Index of the first occurrence of `c` in `s`. */
  function IndexOf(s: string, c: char): (i: nat)
    requires c in s
    ensures i < |s| && s[i] == c && c !in s[..i]
  {
    if s[0] == c then 0 else
      assert c in s[1..];
      var j := IndexOf(s[1..], c);
      assert s[..j + 1] == [s[0]] + s[1..][..j];
      j + 1
  }

  /** `s.split(c)` for a one-character separator. */
  function Split(s: string, c: char): (r: seq<string>)
    ensures |r| >= 1
    decreases |s|
  {
    if c !in s then [s]
    else
      var i := IndexOf(s, c);
      [s[..i]] + Split(s[i + 1..], c)
  }

  /** Splitting on a character and joining with it gives back the string. */
  lemma {:induction false} JoinSplit(s: string, c: char)
    ensures Join(Split(s, c), [c]) == s
    decreases |s|
  {
    if c in s {
      var i := IndexOf(s, c);
      JoinSplit(s[i + 1..], c);
      var rest := Split(s[i + 1..], c);
      assert Split(s, c) == [s[..i]] + rest;
      assert Join(Split(s, c), [c]) == s[..i] + [c] + Join(rest, [c]);
      assert s == s[..i] + [c] + s[i + 1..];
    }
  }

  // ---------------------------------------------------------------- title case

  /** `part.charAt(0).toUpperCase() + part.slice(1)`. */
  function CapitalizeFirst(part: string): string
  {
    if |part| == 0 then part else [ToUpperChar(part[0])] + part[1..]
  }

  function CapitalizeAll(parts: seq<string>): seq<string>
  {
    seq(|parts|, k requires 0 <= k < |parts| => CapitalizeFirst(parts[k]))
  }

  /**
   * Reference definition of word capitalisation, character by character:
   * a character is upper-cased exactly when it starts the string or follows
   * a space.
   */
  function CapitalizeWords(s: string): (r: string)
  {
    seq(|s|, i requires 0 <= i < |s| =>
      if i == 0 || s[i - 1] == ' ' then ToUpperChar(s[i]) else s[i])
  }

  /** The character at `i` of the capitalised string. */
  lemma CapitalizeWordsAt(s: string, i: nat)
    requires i < |s|
    ensures |CapitalizeWords(s)| == |s|
    ensures CapitalizeWords(s)[i] == if i == 0 || s[i - 1] == ' ' then ToUpperChar(s[i]) else s[i]
  {
  }

  /** Without a space, only the first character is capitalised. */
  lemma CapitalizeWordsNoSpace(s: string)
    requires ' ' !in s
    ensures CapitalizeWords(s) == CapitalizeFirst(s)
  {
    var l, r := CapitalizeWords(s), CapitalizeFirst(s);
    forall i | 0 <= i < |s| ensures l[i] == r[i] {
      CapitalizeWordsAt(s, i);
      if i > 0 {
        assert s[i - 1] in s;
        assert r[i] == s[i];
      }
    }
  }

  /** Capitalisation of words splits at the first space. */
  lemma CapitalizeWordsAtSpace(s: string, i: nat)
    requires i < |s| && s[i] == ' ' && ' ' !in s[..i]
    ensures CapitalizeWords(s) == CapitalizeFirst(s[..i]) + " " + CapitalizeWords(s[i + 1..])
  {
    var head, tail := s[..i], s[i + 1..];
    CapitalizeWordsNoSpace(head);
    var l, r := CapitalizeWords(head) + " " + CapitalizeWords(tail), CapitalizeWords(s);
    assert |l| == |r|;
    forall j | 0 <= j < |s| ensures l[j] == r[j] {
      CapitalizeWordsAt(s, j);
      if j < i {
        CapitalizeWordsAt(head, j);
        if j > 0 { assert head[j - 1] == s[j - 1]; }
      } else if j > i {
        CapitalizeWordsAt(tail, j - i - 1);
        assert tail[j - i - 1] == s[j];
        if j > i + 1 { assert tail[j - i - 2] == s[j - 1]; }
      }
    }
  }

  lemma CapitalizeAllCons(head: string, rest: seq<string>)
    ensures CapitalizeAll([head] + rest) == [CapitalizeFirst(head)] + CapitalizeAll(rest)
  {
    var l, r := CapitalizeAll([head] + rest), [CapitalizeFirst(head)] + CapitalizeAll(rest);
    forall k | 0 <= k < |l| ensures l[k] == r[k] {
      if k > 0 { assert ([head] + rest)[k] == rest[k - 1]; }
    }
  }

  /** Splitting at the first occurrence of `c`. */
  lemma SplitAtFirst(s: string, c: char)
    requires c in s
    ensures Split(s, c) == [s[..IndexOf(s, c)]] + Split(s[IndexOf(s, c) + 1..], c)
  {
  }

  /** Split on spaces, capitalise each part, join with spaces: same as capitalising word starts. */
  lemma {:induction false} SplitCapitalizeJoin(s: string)
    ensures Join(CapitalizeAll(Split(s, ' ')), " ") == CapitalizeWords(s)
    decreases |s|
  {
    if ' ' !in s {
      assert Split(s, ' ') == [s];
      assert CapitalizeAll([s]) == [CapitalizeFirst(s)];
      CapitalizeWordsNoSpace(s);
    } else {
      var i := IndexOf(s, ' ');
      var tail := s[i + 1..];
      SplitCapitalizeJoin(tail);
      SplitAtFirst(s, ' ');
      CapitalizeAllCons(s[..i], Split(tail, ' '));
      var caps := [CapitalizeFirst(s[..i])] + CapitalizeAll(Split(tail, ' '));
      assert caps[1..] == CapitalizeAll(Split(tail, ' '));
      assert Join(caps, " ") == CapitalizeFirst(s[..i]) + " " + Join(caps[1..], " ");
      CapitalizeWordsAtSpace(s, i);
    }
  }

  // ---------------------------------------------------------------- trim

  /** The characters JavaScript's `trim` removes: white space and line terminators. */
  predicate IsWhitespace(c: char)
  {
    c == ' ' || c == '\t' || c == '\n' || c == '\r' || c == '\U{B}' || c == '\U{C}'
    || c == '\U{A0}' || c == '\U{1680}' || ('\U{2000}' <= c <= '\U{200A}')
    || c == '\U{2028}' || c == '\U{2029}' || c == '\U{202F}' || c == '\U{205F}'
    || c == '\U{3000}' || c == '\U{FEFF}'
  }

  function TrimStart(s: string): (r: string)
    ensures |r| <= |s| && r == s[|s| - |r|..]
    ensures forall i :: 0 <= i < |s| - |r| ==> IsWhitespace(s[i])
    ensures |r| > 0 ==> !IsWhitespace(r[0])
  {
    if |s| > 0 && IsWhitespace(s[0]) then TrimStart(s[1..]) else s
  }

  function TrimEnd(s: string): (r: string)
    ensures |r| <= |s| && r == s[..|r|]
    ensures forall i :: |r| <= i < |s| ==> IsWhitespace(s[i])
    ensures |r| > 0 ==> !IsWhitespace(r[|r| - 1])
  {
    if |s| > 0 && IsWhitespace(s[|s| - 1]) then TrimEnd(s[..|s| - 1]) else s
  }

  /**
   * `s.trim()`: the result is a contiguous piece of `s` that neither starts
   * nor ends with white space, and only white space was cut away.
   */
  function Trim(s: string): (r: string)
    ensures |r| <= |s|
    ensures |r| > 0 ==> !IsWhitespace(r[0]) && !IsWhitespace(r[|r| - 1])
    ensures exists lo :: 0 <= lo <= |s| - |r| && r <= s[lo..]
                         && (forall i :: 0 <= i < lo ==> IsWhitespace(s[i]))
                         && (forall i :: lo + |r| <= i < |s| ==> IsWhitespace(s[i]))
  {
    var t := TrimStart(s);
    var r := TrimEnd(t);
    var lo := |s| - |t|;
    assert r <= s[lo..];
    r
  }

}
