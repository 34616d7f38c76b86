/** String helpers with the JavaScript semantics the application relies on:
    `trim`, `toLowerCase`, `includes`, `||` on a possibly-missing string,
    and the ordering `localeCompare` gives the ISO strings the app stores. */
module Text {
  import opened Wrappers

  /** The characters `String.prototype.trim` removes: WhiteSpace and LineTerminator. */
  predicate IsSpace(c: char) {
    || c == '\t' || c == '\n' || c == '\U{000B}' || c == '\U{000C}' || c == '\r' || c == ' '
    || c == '\U{00A0}' || c == '\U{1680}' || ('\U{2000}' <= c <= '\U{200A}')
    || c == '\U{2028}' || c == '\U{2029}' || c == '\U{202F}' || c == '\U{205F}'
    || c == '\U{3000}' || c == '\U{FEFF}'
  }

  ghost predicate AllSpace(s: string) {
    forall i :: 0 <= i < |s| ==> IsSpace(s[i])
  }

  /** `r` sits in `s` at offset `i` with nothing but white space around it. */
  ghost predicate SpaceAround(s: string, r: string, i: int) {
    0 <= i <= |s| - |r| && s[i..i + |r|] == r && AllSpace(s[..i]) && AllSpace(s[i + |r|..])
  }

  /** Neither starts nor ends with white space: what `trim` returns. */
  predicate Trimmed(s: string) {
    s == [] || (!IsSpace(s[0]) && !IsSpace(s[|s| - 1]))
  }

  /** `r` is `s` with its surrounding white space removed. */
  ghost predicate IsTrimOf(s: string, r: string) {
    && (exists i :: SpaceAround(s, r, i))
    && Trimmed(r)
  }

  /** JavaScript `s.trim()`. The result is the infix of `s` left after removing
      white space on both sides, and it neither starts nor ends with white space. */
  function Trim(s: string): (r: string)
    ensures |r| <= |s|
    ensures IsTrimOf(s, r)
    decreases |s|
  {
    if |s| > 0 && IsSpace(s[0]) then
      var r := Trim(s[1..]);
      TrimOfTail(s, r);
      r
    else if |s| > 0 && IsSpace(s[|s| - 1]) then
      var r := Trim(s[..|s| - 1]);
      TrimOfFront(s, r);
      r
    else
      assert SpaceAround(s, s, 0);
      s
  }

  lemma TrimOfTail(s: string, r: string)
    requires |s| > 0 && IsSpace(s[0]) && IsTrimOf(s[1..], r)
    ensures IsTrimOf(s, r)
  {
    var i :| SpaceAround(s[1..], r, i);
    assert s[i + 1..i + 1 + |r|] == r;
    assert s[..i + 1] == [s[0]] + s[1..][..i];
    assert s[i + 1 + |r|..] == s[1..][i + |r|..];
    assert SpaceAround(s, r, i + 1);
  }

  lemma TrimOfFront(s: string, r: string)
    requires |s| > 0 && IsSpace(s[|s| - 1]) && IsTrimOf(s[..|s| - 1], r)
    ensures IsTrimOf(s, r)
  {
    var i :| SpaceAround(s[..|s| - 1], r, i);
    assert s[i..i + |r|] == r;
    assert s[..i] == s[..|s| - 1][..i];
    assert s[i + |r|..] == s[..|s| - 1][i + |r|..] + [s[|s| - 1]];
    assert SpaceAround(s, r, i);
  }

  /** `trim` leaves a trimmed string alone. */
  lemma TrimKeepsTrimmed(s: string)
    requires Trimmed(s)
    ensures Trim(s) == s
  {
    var r := Trim(s);
    var i :| SpaceAround(s, r, i);
    if s != [] {
      assert i == 0;
      assert |r| == |s|;
    }
  }

  /** A string trims to "" exactly when it is all white space. */
  lemma TrimEmptyIffAllSpace(s: string)
    ensures Trim(s) == [] <==> AllSpace(s)
  {
    var r := Trim(s);
    var i :| SpaceAround(s, r, i);
    if r == [] {
      forall k | 0 <= k < |s| ensures IsSpace(s[k]) {
        if k < i { assert s[..i][k] == s[k]; } else { assert s[i..][k - i] == s[k]; }
      }
    } else {
      assert s[i] == r[0];
    }
  }

  /** Trimming is idempotent. */
  lemma TrimIdempotent(s: string)
    ensures Trim(Trim(s)) == Trim(s)
  {
    var r := Trim(s);
    var r2 := Trim(r);
    var i :| SpaceAround(r, r2, i);
    if r != [] {
      assert !IsSpace(r[0]) && !IsSpace(r[|r| - 1]);
      assert i == 0;
      assert |r2| == |r|;
    }
  }

  /** JavaScript `toLowerCase` on one character, for the ASCII and Latin-1 letters. */
  function LowerChar(c: char): (r: char)
  {
    if 'A' <= c <= 'Z' || ('\U{00C0}' <= c <= '\U{00DE}' && c != '\U{00D7}') then
      (c as int + 32) as char
    else c
  }

  /** JavaScript `s.toLowerCase()`, character by character. */
  function Lower(s: string): (r: string)
    ensures |r| == |s|
    ensures forall i :: 0 <= i < |s| ==> r[i] == LowerChar(s[i])
  {
    seq(|s|, i requires 0 <= i < |s| => LowerChar(s[i]))
  }

  /** Lower-casing a lower-cased string changes nothing. */
  lemma LowerIdempotent(s: string)
    ensures Lower(Lower(s)) == Lower(s)
  {
  }

  /** `needle` occurs in `hay` at some position. */
  ghost predicate IsInfix(needle: string, hay: string) {
    exists i :: OccursAt(needle, hay, i)
  }

  ghost predicate OccursAt(needle: string, hay: string, i: int) {
    0 <= i <= |hay| - |needle| && hay[i..i + |needle|] == needle
  }

  lemma InfixOfTail(needle: string, hay: string)
    requires |hay| > 0 && !(needle <= hay)
    ensures IsInfix(needle, hay) <==> IsInfix(needle, hay[1..])
  {
    if IsInfix(needle, hay) {
      var i :| OccursAt(needle, hay, i);
      assert i != 0;
      assert OccursAt(needle, hay[1..], i - 1) by {
        assert hay[1..][i - 1..i - 1 + |needle|] == needle;
      }
    }
    if IsInfix(needle, hay[1..]) {
      var i :| OccursAt(needle, hay[1..], i);
      assert hay[i + 1..i + 1 + |needle|] == needle;
      assert OccursAt(needle, hay, i + 1);
    }
  }

  /** JavaScript `hay.includes(needle)`: true exactly when `needle` occurs in `hay`. */
  function Includes(hay: string, needle: string): (r: bool)
    ensures r <==> IsInfix(needle, hay)
    decreases |hay|
  {
    if needle <= hay then
      assert OccursAt(needle, hay, 0);
      true
    else if |hay| == 0 then
      false
    else
      InfixOfTail(needle, hay);
      Includes(hay[1..], needle)
  }

  /** JavaScript `o || fallback` for a string field that may be missing:
      both a missing field and "" read as the fallback. */
  function Or(o: Option<string>, fallback: string): (r: string)
    ensures o.Some? && o.value != [] ==> r == o.value
    ensures (o.None? || o.value == []) ==> r == fallback
  {
    match o
    case Some(s) => if s == [] then fallback else s
    case None => fallback
  }

  /** `a.localeCompare(b) <= 0` on the ISO dates and timestamps the app stores,
      read as lexicographic order of code points. */
  predicate LexLe(a: string, b: string) {
    |a| == 0 || (|b| > 0 && (a[0] < b[0] || (a[0] == b[0] && LexLe(a[1..], b[1..]))))
  }

  lemma {:induction false} LexLeTotal(a: string, b: string)
    ensures LexLe(a, b) || LexLe(b, a)
  {
    if |a| > 0 && |b| > 0 && a[0] == b[0] { LexLeTotal(a[1..], b[1..]); }
  }

  lemma {:induction false} LexLeAntisymmetric(a: string, b: string)
    requires LexLe(a, b) && LexLe(b, a)
    ensures a == b
  {
    if |a| > 0 && |b| > 0 {
      LexLeAntisymmetric(a[1..], b[1..]);
      assert a == [a[0]] + a[1..] && b == [b[0]] + b[1..];
    }
  }

  lemma {:induction false} LexLeTransitive(a: string, b: string, c: string)
    requires LexLe(a, b) && LexLe(b, c)
    ensures LexLe(a, c)
  {
    if |a| > 0 && |b| > 0 && |c| > 0 && a[0] == b[0] && b[0] == c[0] {
      LexLeTransitive(a[1..], b[1..], c[1..]);
    }
  }
}
