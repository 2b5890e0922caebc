/**
 * The Python `str` operations the scraper relies on: `strip`, `lstrip`,
 * `split`, `upper`, `lower` and `replace`, on strings as sequences of characters.
 */
module Text {

  /** The characters for which Python's `str.isspace()` holds, i.e. what `str.strip()` removes. */
  const Whitespace: set<char> := {
    '\t', '\n', '\U{0B}', '\U{0C}', '\r', '\U{1C}', '\U{1D}', '\U{1E}', '\U{1F}', ' ',
    '\U{85}', '\U{A0}', '\U{1680}',
    '\U{2000}', '\U{2001}', '\U{2002}', '\U{2003}', '\U{2004}', '\U{2005}',
    '\U{2006}', '\U{2007}', '\U{2008}', '\U{2009}', '\U{200A}',
    '\U{2028}', '\U{2029}', '\U{202F}', '\U{205F}', '\U{3000}'
  }

  /** True when every character of `s` is in `chars`. */
  predicate AllIn(s: string, chars: set<char>)
  {
    forall i :: 0 <= i < |s| ==> s[i] in chars
  }

  /** `s.lstrip(chars)`: drops the longest prefix made only of characters in `drop`. */
  function TrimStart(s: string, drop: set<char>): (r: string)
    ensures |r| <= |s| && r == s[|s| - |r|..]
    ensures AllIn(s[..|s| - |r|], drop)
    ensures r == [] || r[0] !in drop
    decreases |s|
  {
    if s != [] && s[0] in drop then TrimStart(s[1..], drop) else s
  }

  /** `s.rstrip(chars)`: drops the longest suffix made only of characters in `drop`. */
  function TrimEnd(s: string, drop: set<char>): (r: string)
    ensures |r| <= |s| && r == s[..|r|]
    ensures AllIn(s[|r|..], drop)
    ensures r == [] || r[|r| - 1] !in drop
    decreases |s|
  {
    if s != [] && s[|s| - 1] in drop then TrimEnd(s[..|s| - 1], drop) else s
  }

  /**
   * `s.strip(chars)`: `s` is `r` padded on both sides with characters of `drop`
   * only, and `r` is not padded. `s.strip()` is `Strip(s, Whitespace)`.
   */
  function Strip(s: string, drop: set<char>): (r: string)
    ensures exists i, j :: 0 <= i <= j <= |s| && r == s[i..j] && AllIn(s[..i], drop) && AllIn(s[j..], drop)
    ensures r == [] || (r[0] !in drop && r[|r| - 1] !in drop)
  {
    var t := TrimStart(s, drop);
    var r := TrimEnd(t, drop);
    PaddedSlice(s, t, r, drop);
    r
  }

  /**
   * A prefix `r` of a suffix `t` of `s` sits at `s[i..i + |r|]`: what is dropped
   * before `t` and after `r` lies before and after that slice.
   */
  lemma PaddedSlice(s: string, t: string, r: string, drop: set<char>)
    requires |t| <= |s| && t == s[|s| - |t|..] && AllIn(s[..|s| - |t|], drop)
    requires |r| <= |t| && r == t[..|r|] && AllIn(t[|r|..], drop)
    ensures var i := |s| - |t|;
            && 0 <= i <= i + |r| <= |s| && r == s[i..i + |r|]
            && AllIn(s[..i], drop) && AllIn(s[i + |r|..], drop)
            && (r == [] || r[0] == t[0])
  {
    var i := |s| - |t|;
    assert r == s[i..i + |r|];
    assert t[|r|..] == s[i + |r|..];
  }

  /** `s.split(sep)`: the pieces of `s` between occurrences of `sep`; always at least one piece. */
  function Split(s: string, sep: char): (parts: seq<string>)
    ensures |parts| >= 1
    ensures forall k :: 0 <= k < |parts| ==> sep !in parts[k]
    decreases |s|
  {
    if s == [] then [[]]
    else
      var tail := Split(s[1..], sep);
      if s[0] == sep then [[]] + tail
      else [[s[0]] + tail[0]] + tail[1..]
  }

  /** `sep.join(parts)`. */
  function Join(parts: seq<string>, sep: char): string
    requires |parts| >= 1
  {
    if |parts| == 1 then parts[0] else parts[0] + [sep] + Join(parts[1..], sep)
  }

  /** Joining the pieces back restores the split string. */
  lemma {:induction false} JoinSplit(s: string, sep: char)
    ensures Join(Split(s, sep), sep) == s
    decreases |s|
  {
    if s != [] {
      var tail := Split(s[1..], sep);
      JoinSplit(s[1..], sep);
      if s[0] == sep {
        assert Split(s, sep) == [[]] + tail;
        assert ([[]] + tail)[1..] == tail;
      } else {
        var parts := [[s[0]] + tail[0]] + tail[1..];
        assert Split(s, sep) == parts;
        if |tail| == 1 {
          assert parts == [[s[0]] + tail[0]];
        } else {
          assert parts[1..] == tail[1..];
          assert Join(tail, sep) == tail[0] + [sep] + Join(tail[1..], sep);
        }
      }
    }
  }

  /** Splitting a join of separator-free pieces gives those pieces back. */
  lemma {:induction false} SplitJoin(parts: seq<string>, sep: char)
    requires |parts| >= 1
    requires forall k :: 0 <= k < |parts| ==> sep !in parts[k]
    ensures Split(Join(parts, sep), sep) == parts
    decreases |parts|, |parts[0]|
  {
    if |parts| == 1 {
      SplitNoSep(parts[0], sep);
    } else if parts[0] == [] {
      var tail := parts[1..];
      assert forall k :: 0 <= k < |tail| ==> tail[k] == parts[k + 1];
      SplitJoin(tail, sep);
      SplitJoinEmptyHead(parts, sep);
    } else {
      var shorter := [parts[0][1..]] + parts[1..];
      assert forall c :: c in parts[0][1..] ==> c in parts[0];
      assert forall k :: 1 <= k < |shorter| ==> shorter[k] == parts[k];
      SplitJoin(shorter, sep);
      SplitJoinLongHead(parts, sep);
    }
  }

  /** The step of `SplitJoin` for an empty first piece. */
  lemma SplitJoinEmptyHead(parts: seq<string>, sep: char)
    requires |parts| >= 2 && parts[0] == []
    requires Split(Join(parts[1..], sep), sep) == parts[1..]
    ensures Split(Join(parts, sep), sep) == parts
  {
    var rest := Join(parts[1..], sep);
    assert Join(parts, sep) == [sep] + rest;
    assert ([sep] + rest)[1..] == rest;
    assert parts == [[]] + parts[1..];
  }

  /** The step of `SplitJoin` for a first piece that is not empty. */
  lemma SplitJoinLongHead(parts: seq<string>, sep: char)
    requires |parts| >= 2 && parts[0] != [] && parts[0][0] != sep
    requires Split(Join([parts[0][1..]] + parts[1..], sep), sep) == [parts[0][1..]] + parts[1..]
    ensures Split(Join(parts, sep), sep) == parts
  {
    var c := parts[0][0];
    var shorter := [parts[0][1..]] + parts[1..];
    assert shorter[1..] == parts[1..];
    JoinShorter(parts, sep);
    SplitCons(c, Join(shorter, sep), sep);
    assert parts[0] == [c] + shorter[0];
    assert parts == [[c] + shorter[0]] + shorter[1..];
  }

  /** A first piece that is not empty contributes its first character ahead of the rest of the join. */
  lemma JoinShorter(parts: seq<string>, sep: char)
    requires |parts| >= 2 && parts[0] != []
    ensures Join(parts, sep) == [parts[0][0]] + Join([parts[0][1..]] + parts[1..], sep)
  {
    var shorter := [parts[0][1..]] + parts[1..];
    assert shorter[1..] == parts[1..];
    assert parts[0] == [parts[0][0]] + parts[0][1..];
  }

  /** A first character other than the separator extends the first piece. */
  lemma SplitCons(c: char, t: string, sep: char)
    requires c != sep
    ensures Split([c] + t, sep) == [[c] + Split(t, sep)[0]] + Split(t, sep)[1..]
  {
    assert ([c] + t)[1..] == t;
  }

  lemma {:induction false} SplitNoSep(s: string, sep: char)
    requires sep !in s
    ensures Split(s, sep) == [s]
    decreases |s|
  {
    if s != [] {
      SplitNoSep(s[1..], sep);
      assert [s[0]] + s[1..] == s;
    }
  }

  predicate IsLowerAscii(c: char) { 'a' <= c <= 'z' }

  predicate IsUpperAscii(c: char) { 'A' <= c <= 'Z' }

  function UpperChar(c: char): char
  {
    if IsLowerAscii(c) then (c as int - 'a' as int + 'A' as int) as char else c
  }

  function LowerChar(c: char): char
  {
    if IsUpperAscii(c) then (c as int - 'A' as int + 'a' as int) as char else c
  }

  /** `s.upper()`, restricted to the ASCII letters: lower-case letters become upper-case, nothing else changes. */
  function ToUpper(s: string): (r: string)
    ensures |r| == |s|
    ensures forall i :: 0 <= i < |s| ==> r[i] == UpperChar(s[i])
    ensures forall i :: 0 <= i < |s| ==> !IsLowerAscii(r[i]) && LowerChar(r[i]) == LowerChar(s[i])
    ensures forall i :: 0 <= i < |s| && !IsLowerAscii(s[i]) ==> r[i] == s[i]
  {
    seq(|s|, i requires 0 <= i < |s| => UpperChar(s[i]))
  }

  /** `s.lower()`, restricted to the ASCII letters: upper-case letters become lower-case, nothing else changes. */
  function ToLower(s: string): (r: string)
    ensures |r| == |s|
    ensures forall i :: 0 <= i < |s| ==> r[i] == LowerChar(s[i])
    ensures forall i :: 0 <= i < |s| ==> !IsUpperAscii(r[i]) && UpperChar(r[i]) == UpperChar(s[i])
    ensures forall i :: 0 <= i < |s| && !IsUpperAscii(s[i]) ==> r[i] == s[i]
  {
    seq(|s|, i requires 0 <= i < |s| => LowerChar(s[i]))
  }

  /** Case mapping works character by character, so it distributes over concatenation. */
  lemma ToUpperAppend(a: string, b: string)
    ensures ToUpper(a + b) == ToUpper(a) + ToUpper(b)
  {
    assert forall i :: 0 <= i < |a + b| ==> ToUpper(a + b)[i] == (ToUpper(a) + ToUpper(b))[i];
  }

  lemma ToLowerAppend(a: string, b: string)
    ensures ToLower(a + b) == ToLower(a) + ToLower(b)
  {
    assert forall i :: 0 <= i < |a + b| ==> ToLower(a + b)[i] == (ToLower(a) + ToLower(b))[i];
  }

  /** `s.replace(c, "")`: `s` without any occurrence of `c`, the other characters kept in order. */
  function Without(s: string, c: char): (r: string)
    ensures c !in r
    ensures |r| <= |s|
    ensures forall i :: 0 <= i < |r| ==> r[i] in s
    ensures c !in s ==> r == s
    decreases |s|
  {
    if s == [] then []
    else if s[0] == c then Without(s[1..], c)
    else [s[0]] + Without(s[1..], c)
  }

  /** One character is dropped when it is `c` and kept otherwise. */
  lemma WithoutChar(d: char, c: char)
    ensures Without([d], c) == if d == c then [] else [d]
  {
    assert [d][1..] == [];
  }

  /**
   * Removal works piece by piece: together with `WithoutChar` this pins
   * `Without` down as keeping every other character, in order.
   */
  lemma {:induction false} WithoutAppend(a: string, b: string, c: char)
    ensures Without(a + b, c) == Without(a, c) + Without(b, c)
    decreases |a|
  {
    if a == [] {
      assert a + b == b;
    } else {
      assert (a + b)[0] == a[0];
      assert (a + b)[1..] == a[1..] + b;
      WithoutAppend(a[1..], b, c);
    }
  }

  /** Lower-casing after removing a non-letter equals removing it after lower-casing. */
  lemma {:induction false} LowerWithout(s: string, c: char)
    requires !IsUpperAscii(c) && !IsLowerAscii(c)
    ensures ToLower(Without(s, c)) == Without(ToLower(s), c)
    decreases |s|
  {
    if s != [] {
      var h, t := [s[0]], s[1..];
      assert s == h + t;
      LowerWithout(t, c);
      WithoutAppend(h, t, c);
      ToLowerAppend(Without(h, c), Without(t, c));
      ToLowerAppend(h, t);
      WithoutAppend(ToLower(h), ToLower(t), c);
      WithoutChar(s[0], c);
      assert ToLower(h) == [LowerChar(s[0])];
      WithoutChar(LowerChar(s[0]), c);
    }
  }

  /** Lower-casing an upper-cased string gives the lower-cased original. */
  lemma LowerUpper(s: string)
    ensures ToLower(ToUpper(s)) == ToLower(s)
  {
  }
}
