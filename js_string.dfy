/** The JavaScript string built-ins that the registration form applies to a
    field name: `toUpperCase` on one character, `replace(/([A-Z])/g, " $1")`,
    `trim` and `includes`. Strings are sequences of characters. */
module JsString {

  predicate IsAsciiUpper(c: char) { 'A' <= c <= 'Z' }

  predicate IsAsciiLower(c: char) { 'a' <= c <= 'z' }

  /** `String.prototype.toUpperCase` on a one-character string, for the
      ASCII letters; every other character is left as it is. */
  function ToUpperChar(c: char): (u: char)
    ensures IsAsciiLower(c) ==> IsAsciiUpper(u) && u as int - 'A' as int == c as int - 'a' as int
    ensures !IsAsciiLower(c) ==> u == c
  {
    if IsAsciiLower(c) then (c as int - 'a' as int + 'A' as int) as char else c
  }

  /** The characters `trim` removes: ECMAScript's WhiteSpace and
      LineTerminator productions (tab, vertical tab, form feed, space,
      no-break space, byte order mark, the Unicode space separators, line
      feed, carriage return, line and paragraph separator). */
  predicate IsWhitespace(c: char) {
    var k := c as int;
    k == 0x09 || k == 0x0A || k == 0x0B || k == 0x0C || k == 0x0D ||
    k == 0x20 || k == 0xA0 || k == 0x1680 || (0x2000 <= k <= 0x200A) ||
    k == 0x2028 || k == 0x2029 || k == 0x202F || k == 0x205F ||
    k == 0x3000 || k == 0xFEFF
  }

  predicate NoWhitespace(s: string) {
    forall i :: 0 <= i < |s| ==> !IsWhitespace(s[i])
  }

  /** Leading whitespace removed. */
  function TrimStart(s: string): (r: string)
    ensures |r| <= |s|
  {
    if s != [] && IsWhitespace(s[0]) then TrimStart(s[1..]) else s
  }

  /** Trailing whitespace removed. */
  function TrimEnd(s: string): (r: string)
    ensures |r| <= |s|
  {
    if s != [] && IsWhitespace(s[|s| - 1]) then TrimEnd(s[..|s| - 1]) else s
  }

  /** `TrimStart(s)` is a suffix of `s`, everything cut off is whitespace and
      the result does not start with whitespace. */
  lemma {:induction false} TrimStartSpec(s: string)
    ensures var r := TrimStart(s);
            r == s[|s| - |r|..] &&
            (forall i :: 0 <= i < |s| - |r| ==> IsWhitespace(s[i])) &&
            (r != [] ==> !IsWhitespace(r[0]))
  {
    if s != [] && IsWhitespace(s[0]) {
      TrimStartSpec(s[1..]);
    }
  }

  /** `TrimEnd(s)` is a prefix of `s`, everything cut off is whitespace and
      the result does not end with whitespace. */
  lemma {:induction false} TrimEndSpec(s: string)
    ensures var r := TrimEnd(s);
            r == s[..|r|] &&
            (forall i :: |r| <= i < |s| ==> IsWhitespace(s[i])) &&
            (r != [] ==> !IsWhitespace(r[|r| - 1]))
  {
    if s != [] && IsWhitespace(s[|s| - 1]) {
      TrimEndSpec(s[..|s| - 1]);
    }
  }

  /** `String.prototype.trim`: the result is a contiguous part of `s` that
      neither starts nor ends with whitespace, and only whitespace is cut. */
  function Trim(s: string): (r: string)
    ensures r == [] || (!IsWhitespace(r[0]) && !IsWhitespace(r[|r| - 1]))
    ensures NoWhitespace(s) ==> r == s
  {
    TrimStartSpec(s);
    TrimEndSpec(TrimStart(s));
    TrimEnd(TrimStart(s))
  }

  /** `trim` leaves alone a string that neither starts nor ends with
      whitespace. */
  lemma {:induction false} TrimUntouched(s: string)
    requires s != [] && !IsWhitespace(s[0]) && !IsWhitespace(s[|s| - 1])
    ensures Trim(s) == s
  {
    assert TrimStart(s) == s;
    assert TrimEnd(s) == s;
  }

  /** `trim` keeps a contiguous part of `s`, starting after the leading
      whitespace, and everything it cuts on either side is whitespace. */
  lemma {:induction false} TrimSpec(s: string)
    ensures var r := Trim(s);
            var a := |s| - |TrimStart(s)|;
            a + |r| <= |s| && r == s[a..a + |r|] &&
            (forall i :: 0 <= i < a ==> IsWhitespace(s[i])) &&
            (forall i :: a + |r| <= i < |s| ==> IsWhitespace(s[i]))
  {
    var t := TrimStart(s);
    TrimStartSpec(s);
    TrimEndSpec(t);
    var a := |s| - |t|;
    var r := TrimEnd(t);
    assert r == s[a..a + |r|] by {
      assert t == s[a..];
      assert r == t[..|r|];
    }
    forall i | a + |r| <= i < |s|
      ensures IsWhitespace(s[i])
    {
      assert s[i] == t[i - a];
    }
  }

  /** The number of ASCII upper-case letters in `s`. */
  function CountUpper(s: string): nat {
    if s == [] then 0 else (if IsAsciiUpper(s[0]) then 1 else 0) + CountUpper(s[1..])
  }

  /** `s` with every space character removed. */
  function Unspaced(s: string): (r: string)
    ensures forall i :: 0 <= i < |r| ==> r[i] != ' '
  {
    if s == [] then [] else (if s[0] == ' ' then [] else [s[0]]) + Unspaced(s[1..])
  }

  /** `s.replace(/([A-Z])/g, " $1")`: a space is inserted before every ASCII
      upper-case letter and nothing else changes. */
  function SpaceBeforeUpper(s: string): (r: string)
    ensures |r| == |s| + CountUpper(s)
    ensures s != [] ==> r != [] && r[|r| - 1] == s[|s| - 1]
  {
    if s == [] then []
    else (if IsAsciiUpper(s[0]) then [' ', s[0]] else [s[0]]) + SpaceBeforeUpper(s[1..])
  }

  /** `SpaceBeforeUpper` only inserts spaces: with the spaces deleted, input
      and output agree. */
  lemma {:induction false} SpaceBeforeUpperUnspaced(s: string)
    ensures Unspaced(SpaceBeforeUpper(s)) == Unspaced(s)
  {
    if s != [] {
      var head := if IsAsciiUpper(s[0]) then [' ', s[0]] else [s[0]];
      SpaceBeforeUpperUnspaced(s[1..]);
      UnspacedAppend(head, SpaceBeforeUpper(s[1..]));
    }
  }

  /** `SpaceBeforeUpper` works character by character. */
  lemma {:induction false} SpaceBeforeUpperAppend(a: string, b: string)
    ensures SpaceBeforeUpper(a + b) == SpaceBeforeUpper(a) + SpaceBeforeUpper(b)
  {
    if a == [] {
      assert a + b == b;
    } else {
      var head := if IsAsciiUpper(a[0]) then [' ', a[0]] else [a[0]];
      assert (a + b)[0] == a[0] && (a + b)[1..] == a[1..] + b;
      calc {
        SpaceBeforeUpper(a + b);
        head + SpaceBeforeUpper(a[1..] + b);
        { SpaceBeforeUpperAppend(a[1..], b); }
        head + (SpaceBeforeUpper(a[1..]) + SpaceBeforeUpper(b));
        (head + SpaceBeforeUpper(a[1..])) + SpaceBeforeUpper(b);
        SpaceBeforeUpper(a) + SpaceBeforeUpper(b);
      }
    }
  }

  /** Where `SpaceBeforeUpper` puts the character `s[i]`: shifted right by
      the number of upper-case letters up to and including it, and preceded
      by a space when it is itself upper-case. */
  lemma {:induction false} SpaceBeforeUpperAt(s: string, i: int)
    requires 0 <= i < |s|
    ensures var j := i + CountUpper(s[..i + 1]);
            j < |SpaceBeforeUpper(s)| && SpaceBeforeUpper(s)[j] == s[i] &&
            (IsAsciiUpper(s[i]) ==> SpaceBeforeUpper(s)[j - 1] == ' ')
  {
    var head := if IsAsciiUpper(s[0]) then [' ', s[0]] else [s[0]];
    assert SpaceBeforeUpper(s) == head + SpaceBeforeUpper(s[1..]);
    if i > 0 {
      SpaceBeforeUpperAt(s[1..], i - 1);
      assert s[..i + 1][1..] == s[1..][..i];
      assert CountUpper(s[..i + 1]) == |head| - 1 + CountUpper(s[1..][..i]);
    }
  }

  /** `OccursAt(s, sub, i)`: `sub` occurs in `s` starting at index `i`. */
  predicate OccursAt(s: string, sub: string, i: int) {
    0 <= i && i + |sub| <= |s| && s[i..i + |sub|] == sub
  }

  /** `s.includes(sub)`. */
  function Includes(s: string, sub: string): (b: bool)
    ensures b <==> exists i :: OccursAt(s, sub, i)
  {
    if OccursAt(s, sub, 0) then
      true
    else if s == [] then
      false
    else
      var b := Includes(s[1..], sub);
      if b then
        var i :| OccursAt(s[1..], sub, i);
        assert OccursAt(s, sub, i + 1) by {
          assert s[i + 1..i + 1 + |sub|] == s[1..][i..i + |sub|];
        }
        true
      else
        IncludesShift(s, sub);
        false
  }

  /** An occurrence that is not at index 0 is an occurrence in the tail. */
  lemma IncludesShift(s: string, sub: string)
    requires s != [] && !OccursAt(s, sub, 0)
    ensures forall i :: OccursAt(s, sub, i) ==> OccursAt(s[1..], sub, i - 1)
  {
    forall i | OccursAt(s, sub, i) ensures OccursAt(s[1..], sub, i - 1) {
      assert s[1..][i - 1..i - 1 + |sub|] == s[i..i + |sub|];
    }
  }

  lemma {:induction false} UnspacedAppend(a: string, b: string)
    ensures Unspaced(a + b) == Unspaced(a) + Unspaced(b)
  {
    if a == [] {
      assert a + b == b;
    } else {
      assert (a + b)[1..] == a[1..] + b;
      UnspacedAppend(a[1..], b);
    }
  }

  /** Removing spaces from a string without spaces gives it back. */
  lemma {:induction false} UnspacedIdentity(s: string)
    requires forall i :: 0 <= i < |s| ==> s[i] != ' '
    ensures Unspaced(s) == s
  {
    if s != [] {
      UnspacedIdentity(s[1..]);
    }
  }

  /** When the only whitespace in `s` is the space character, `trim` removes
      nothing but spaces. */
  lemma {:induction false} UnspacedTrim(s: string)
    requires forall i :: 0 <= i < |s| && IsWhitespace(s[i]) ==> s[i] == ' '
    ensures Unspaced(Trim(s)) == Unspaced(s)
  {
    TrimStartSpec(s);
    UnspacedTrimStart(s);
    UnspacedTrimEnd(TrimStart(s));
  }

  lemma {:induction false} UnspacedTrimStart(s: string)
    requires forall i :: 0 <= i < |s| && IsWhitespace(s[i]) ==> s[i] == ' '
    ensures Unspaced(TrimStart(s)) == Unspaced(s)
  {
    TrimStartSpec(s);
    var t := TrimStart(s);
    var cut := s[..|s| - |t|];
    assert s == cut + t;
    assert forall i :: 0 <= i < |cut| ==> cut[i] == ' ' by {
      forall i | 0 <= i < |cut| ensures cut[i] == ' ' {
        assert cut[i] == s[i] && IsWhitespace(s[i]);
      }
    }
    UnspacedAppend(cut, t);
    UnspacedBlank(cut);
  }

  lemma {:induction false} UnspacedTrimEnd(s: string)
    requires forall i :: 0 <= i < |s| && IsWhitespace(s[i]) ==> s[i] == ' '
    ensures Unspaced(TrimEnd(s)) == Unspaced(s)
  {
    TrimEndSpec(s);
    var t := TrimEnd(s);
    var cut := s[|t|..];
    assert s == t + cut;
    assert forall i :: 0 <= i < |cut| ==> cut[i] == ' ' by {
      forall i | 0 <= i < |cut| ensures cut[i] == ' ' {
        assert cut[i] == s[|t| + i] && IsWhitespace(s[|t| + i]);
      }
    }
    UnspacedAppend(t, cut);
    UnspacedBlank(cut);
  }

  lemma {:induction false} UnspacedBlank(s: string)
    requires forall i :: 0 <= i < |s| ==> s[i] == ' '
    ensures Unspaced(s) == []
  {
    if s != [] {
      UnspacedBlank(s[1..]);
    }
  }

  /** A whitespace character of `SpaceBeforeUpper(s)` is an inserted space
      or comes from `s`. */
  lemma {:induction false} SpaceBeforeUpperChars(s: string)
    ensures forall i :: 0 <= i < |SpaceBeforeUpper(s)| ==>
              SpaceBeforeUpper(s)[i] == ' ' || SpaceBeforeUpper(s)[i] in s
  {
    if s != [] {
      SpaceBeforeUpperChars(s[1..]);
      var head := if IsAsciiUpper(s[0]) then [' ', s[0]] else [s[0]];
      var r := SpaceBeforeUpper(s);
      assert r == head + SpaceBeforeUpper(s[1..]);
      forall i | 0 <= i < |r| ensures r[i] == ' ' || r[i] in s {
        if i >= |head| {
          assert r[i] == SpaceBeforeUpper(s[1..])[i - |head|];
        }
      }
    }
  }

  predicate AllLower(s: string) {
    forall i :: 0 <= i < |s| ==> IsAsciiLower(s[i])
  }

  /** Without upper-case letters there is nothing to space out. */
  lemma {:induction false} SpaceBeforeUpperNoUpper(s: string)
    requires AllLower(s)
    ensures SpaceBeforeUpper(s) == s
  {
    if s != [] {
      SpaceBeforeUpperNoUpper(s[1..]);
    }
  }

  /** Spacing out a lower-case word followed by a capitalised one. */
  lemma {:induction false} SpaceBeforeUpperTwoWords(first: string, second: string)
    requires AllLower(first)
    requires second != [] && IsAsciiUpper(second[0]) && AllLower(second[1..])
    ensures SpaceBeforeUpper(first + second) == first + [' '] + second
  {
    var tail := second[1..];
    calc {
      SpaceBeforeUpper(first + second);
      { SpaceBeforeUpperAppend(first, second); }
      SpaceBeforeUpper(first) + SpaceBeforeUpper(second);
      { SpaceBeforeUpperNoUpper(first); }
      first + SpaceBeforeUpper(second);
      first + ([' ', second[0]] + SpaceBeforeUpper(tail));
      { SpaceBeforeUpperNoUpper(tail); }
      first + ([' ', second[0]] + tail);
      { assert [' ', second[0]] + tail == [' '] + second; }
      first + [' '] + second;
    }
  }
}
