/** The string operations of the categorical cleanup: whitespace trimming,
    removal of everything that is not an ASCII letter or whitespace, title
    casing, and the code-point order used to break ties between equally
    similar vocabulary entries. */
module Text {

  /** Whitespace as the host language's `str.isspace` and its regular
      expressions' `\s` class define it: the ASCII controls tab to carriage
      return, the four separators 0x1C-0x1F, space, and the Unicode
      separators. */
  predicate IsSpace(c: char) {
    ('\t' <= c <= '\r') || ('\U{1C}' <= c <= '\U{1F}') || c == ' '
    || c == '\U{85}' || c == '\U{A0}' || c == '\U{1680}'
    || ('\U{2000}' <= c <= '\U{200A}') || c == '\U{2028}' || c == '\U{2029}'
    || c == '\U{202F}' || c == '\U{205F}' || c == '\U{3000}'
  }

  /** The class `[a-zA-Z]`. */
  predicate IsAsciiLetter(c: char) {
    ('a' <= c <= 'z') || ('A' <= c <= 'Z')
  }

  /** What survives the filter: an ASCII letter or whitespace. */
  predicate IsKept(c: char) {
    IsAsciiLetter(c) || IsSpace(c)
  }

  function TrimLeft(s: string): (r: string)
    ensures |r| <= |s| && r == s[|s| - |r|..]
    ensures forall i :: 0 <= i < |s| - |r| ==> IsSpace(s[i])
    ensures r == [] || !IsSpace(r[0])
  {
    if s != [] && IsSpace(s[0]) then TrimLeft(s[1..]) else s
  }

  function TrimRight(s: string): (r: string)
    ensures |r| <= |s| && r == s[..|r|]
    ensures forall i :: |r| <= i < |s| ==> IsSpace(s[i])
    ensures r == [] || !IsSpace(r[|r| - 1])
  {
    if s != [] && IsSpace(s[|s| - 1]) then TrimRight(s[..|s| - 1]) else s
  }

  /** `str.strip()`: leading and trailing whitespace removed. */
  function Strip(s: string): (r: string)
    ensures r == [] || (!IsSpace(r[0]) && !IsSpace(r[|r| - 1]))
    ensures |r| <= |s|
    ensures exists i, j :: (0 <= i <= j <= |s| && r == s[i..j]
      && (forall k :: 0 <= k < i ==> IsSpace(s[k]))
      && forall k :: j <= k < |s| ==> IsSpace(s[k]))
  {
    StripIsInfix(s, TrimLeft(s), TrimRight(TrimLeft(s)));
    TrimRight(TrimLeft(s))
  }

  /** Trimming the front and then the back leaves an infix of `s` whose
      surroundings are whitespace. */
  lemma StripIsInfix(s: string, left: string, r: string)
    requires |left| <= |s| && left == s[|s| - |left|..]
    requires forall k :: 0 <= k < |s| - |left| ==> IsSpace(s[k])
    requires |r| <= |left| && r == left[..|r|]
    requires forall k :: |r| <= k < |left| ==> IsSpace(left[k])
    ensures exists i, j :: (0 <= i <= j <= |s| && r == s[i..j]
      && (forall k :: 0 <= k < i ==> IsSpace(s[k]))
      && forall k :: j <= k < |s| ==> IsSpace(s[k]))
  {
    var i := |s| - |left|;
    assert r == s[i..i + |r|];
    assert forall k :: i + |r| <= k < |s| ==> s[k] == left[k - i];
  }

  /** `re.sub(r"[^a-zA-Z\s]", "", s)`: every character other than an ASCII
      letter or whitespace deleted, the rest kept in order. */
  function KeepLettersAndSpaces(s: string): (r: string)
    ensures |r| <= |s|
    ensures forall i :: 0 <= i < |r| ==> IsKept(r[i])
    ensures (forall i :: 0 <= i < |s| ==> IsKept(s[i])) ==> r == s
    ensures (forall i :: 0 <= i < |s| ==> !IsKept(s[i])) ==> r == []
  {
    if s == [] then []
    else
      var rest := KeepLettersAndSpaces(s[1..]);
      if IsKept(s[0]) then [s[0]] + rest else rest
  }

  function Upper(c: char): char {
    if 'a' <= c <= 'z' then (c as int - 32) as char else c
  }

  function Lower(c: char): char {
    if 'A' <= c <= 'Z' then (c as int + 32) as char else c
  }

  /** The title-cased form of `c`, given whether the character before it is cased. */
  function TitleChar(c: char, afterCased: bool): char {
    if !IsAsciiLetter(c) then c else if afterCased then Lower(c) else Upper(c)
  }

  /** `str.title()` on a string whose only cased characters are ASCII letters
      (all the filter lets through): a letter after a letter is lower-cased,
      any other letter upper-cased, and nothing else changes. */
  function Title(s: string): (r: string)
    ensures |r| == |s|
    ensures forall i :: 0 <= i < |s| ==> r[i] == TitleChar(s[i], i > 0 && IsAsciiLetter(s[i - 1]))
  {
    TitleFrom(s, false)
  }

  function TitleFrom(s: string, afterCased: bool): (r: string)
    ensures |r| == |s|
    ensures forall i :: 0 <= i < |s| ==>
      r[i] == TitleChar(s[i], if i == 0 then afterCased else IsAsciiLetter(s[i - 1]))
  {
    if s == [] then []
    else
      var rest := TitleFrom(s[1..], IsAsciiLetter(s[0]));
      var r := [TitleChar(s[0], afterCased)] + rest;
      assert forall i :: 1 <= i < |s| ==> r[i] == rest[i - 1] && s[1..][i - 1] == s[i];
      r
  }

  /** Title casing keeps every character's class, so it never lets anything
      through that the filter removed. */
  lemma TitleKeepsClasses(s: string)
    ensures forall i :: 0 <= i < |s| ==> (IsAsciiLetter(Title(s)[i]) <==> IsAsciiLetter(s[i]))
    ensures forall i :: 0 <= i < |s| ==> (IsKept(Title(s)[i]) <==> IsKept(s[i]))
  {
    forall i | 0 <= i < |s|
      ensures IsAsciiLetter(Title(s)[i]) <==> IsAsciiLetter(s[i])
      ensures IsKept(Title(s)[i]) <==> IsKept(s[i])
    {
      TitleCharFacts(s[i], i > 0 && IsAsciiLetter(s[i - 1]));
    }
  }

  lemma TitleCharFacts(c: char, afterCased: bool)
    ensures IsAsciiLetter(TitleChar(c, afterCased)) <==> IsAsciiLetter(c)
    ensures IsKept(TitleChar(c, afterCased)) <==> IsKept(c)
    ensures TitleChar(TitleChar(c, afterCased), afterCased) == TitleChar(c, afterCased)
  {
    if 'a' <= c <= 'z' {
      assert 'a' as int == 97 && 'z' as int == 122 && 'A' as int == 65 && 'Z' as int == 90;
    } else if 'A' <= c <= 'Z' {
      assert 'a' as int == 97 && 'z' as int == 122 && 'A' as int == 65 && 'Z' as int == 90;
    }
  }

  /** Title casing a title-cased string changes nothing. */
  lemma TitleIdempotent(s: string)
    ensures Title(Title(s)) == Title(s)
  {
    var t := Title(s);
    TitleKeepsClasses(s);
    forall i | 0 <= i < |s| ensures Title(t)[i] == t[i] {
      TitleCharFacts(s[i], i > 0 && IsAsciiLetter(s[i - 1]));
    }
  }

  /** `t` agrees with the title-cased `s` on the first `n` characters. */
  predicate TitledAs(s: string, t: string, n: nat)
    requires n <= |s| == |t|
  {
    n == 0 || (TitledAs(s, t, n - 1) && t[n - 1] == TitleChar(s[n - 1], n > 1 && IsAsciiLetter(s[n - 2])))
  }

  lemma {:induction false} TitledAsPrefix(s: string, t: string, n: nat)
    requires n <= |s| == |t| && TitledAs(s, t, n)
    ensures forall i :: 0 <= i < n ==> t[i] == Title(s)[i]
  {
    if n > 0 {
      TitledAsPrefix(s, t, n - 1);
    }
  }

  /** Evaluates `Title` on a given string one character at a time. */
  lemma TitleIs(s: string, t: string, n: nat)
    requires n == |s| == |t| && TitledAs(s, t, n)
    ensures Title(s) == t
  {
    TitledAsPrefix(s, t, n);
  }

  /** A string with no whitespace at either end is its own strip. */
  lemma StripOfTrimmed(s: string)
    requires s != [] && !IsSpace(s[0]) && !IsSpace(s[|s| - 1])
    ensures Strip(s) == s
  {
  }

  /** The first `n` characters of `s` all pass the filter. */
  predicate KeptUpTo(s: string, n: nat)
    requires n <= |s|
  {
    n == 0 || (KeptUpTo(s, n - 1) && IsKept(s[n - 1]))
  }

  /** The first `n` characters of `s` are ASCII letters already in title case. */
  predicate TitleWordUpTo(s: string, n: nat)
    requires n <= |s|
  {
    n == 0 || (TitleWordUpTo(s, n - 1) && IsAsciiLetter(s[n - 1]) && s[n - 1] == TitleChar(s[n - 1], n > 1))
  }

  lemma {:induction false} TitleWordFacts(s: string, n: nat)
    requires n <= |s| && TitleWordUpTo(s, n)
    ensures KeptUpTo(s, n) && TitledAs(s, s, n)
    ensures forall i :: 0 <= i < n ==> IsAsciiLetter(s[i])
  {
    if n > 0 {
      TitleWordFacts(s, n - 1);
    }
  }

  lemma {:induction false} KeptUpToAll(s: string, n: nat)
    requires n <= |s| && KeptUpTo(s, n)
    ensures forall i :: 0 <= i < n ==> IsKept(s[i])
  {
    if n > 0 {
      KeptUpToAll(s, n - 1);
    }
  }

  /** The filter turns the first `n` characters of `s` into the first `m` of `t`. */
  predicate FiltersTo(s: string, t: string, n: nat, m: nat)
    requires n <= |s| && m <= |t|
  {
    if n == 0 then m == 0
    else if IsKept(s[n - 1]) then m > 0 && t[m - 1] == s[n - 1] && FiltersTo(s, t, n - 1, m - 1)
    else FiltersTo(s, t, n - 1, m)
  }

  lemma {:induction false} FiltersToPrefix(s: string, t: string, n: nat, m: nat)
    requires n <= |s| && m <= |t| && FiltersTo(s, t, n, m)
    ensures KeepLettersAndSpaces(s[..n]) == t[..m]
  {
    if n > 0 {
      var c := s[n - 1];
      assert s[..n] == s[..n - 1] + [c];
      if IsKept(c) {
        FiltersToPrefix(s, t, n - 1, m - 1);
        assert t[..m] == t[..m - 1] + [c];
        KeepSnoc(s[..n - 1], c, t[..m - 1], t[..m]);
      } else {
        FiltersToPrefix(s, t, n - 1, m);
        KeepSnoc(s[..n - 1], c, t[..m], t[..m]);
      }
    }
  }

  /** Evaluates the filter on a given string one character at a time. */
  lemma FilterIs(s: string, t: string, n: nat, m: nat)
    requires n == |s| && m == |t| && FiltersTo(s, t, n, m)
    ensures KeepLettersAndSpaces(s) == t
  {
    FiltersToPrefix(s, t, n, m);
    assert s[..n] == s && t[..m] == t;
  }

  /** The filter applied to a string extended by one character. */
  lemma KeepSnoc(a: string, c: char, u: string, v: string)
    requires KeepLettersAndSpaces(a) == u
    requires v == if IsKept(c) then u + [c] else u
    ensures KeepLettersAndSpaces(a + [c]) == v
  {
    KeepAppend(a, [c]);
    assert KeepLettersAndSpaces([c]) == if IsKept(c) then [c] else [];
  }

  lemma {:induction false} KeepAppend(a: string, b: string)
    ensures KeepLettersAndSpaces(a + b) == KeepLettersAndSpaces(a) + KeepLettersAndSpaces(b)
  {
    if a == [] {
      assert a + b == b;
    } else {
      assert (a + b)[0] == a[0] && (a + b)[1..] == a[1..] + b;
      KeepAppend(a[1..], b);
    }
  }

  /** Strict order of strings by code points, as the host language compares them. */
  predicate Below(a: string, b: string) {
    if a == [] then b != []
    else if b == [] then false
    else a[0] < b[0] || (a[0] == b[0] && Below(a[1..], b[1..]))
  }

  lemma {:induction false} BelowIrreflexive(a: string)
    ensures !Below(a, a)
  {
    if a != [] {
      BelowIrreflexive(a[1..]);
    }
  }

  lemma {:induction false} BelowTransitive(a: string, b: string, c: string)
    requires Below(a, b) && Below(b, c)
    ensures Below(a, c)
  {
    if a != [] && a[0] == b[0] && b[0] == c[0] {
      BelowTransitive(a[1..], b[1..], c[1..]);
    }
  }

  lemma {:induction false} BelowTotal(a: string, b: string)
    ensures a == b || Below(a, b) || Below(b, a)
  {
    if a != [] && b != [] && a[0] == b[0] {
      BelowTotal(a[1..], b[1..]);
      if a[1..] == b[1..] {
        assert a == [a[0]] + a[1..] && b == [b[0]] + b[1..];
      }
    }
  }
}
