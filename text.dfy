/** Python's `str.title()` on city names. A letter that follows a cased
    letter is lowered, every other letter is raised; whether the previous
    character was cased is judged on the original character. Letters with a
    one-to-one case pair in ASCII and Latin-1 (A-Z/a-z, U+00C0-U+00DE /
    U+00E0-U+00FE except the signs U+00D7 and U+00F7) are mapped exactly;
    every other character is taken as uncased and kept. */
module Text {

  predicate IsUpper(c: char)
  {
    'A' <= c <= 'Z' || (0xC0 <= c as int <= 0xDE && c as int != 0xD7)
  }

  predicate IsLower(c: char)
  {
    'a' <= c <= 'z' || (0xE0 <= c as int <= 0xFE && c as int != 0xF7)
  }

  predicate IsCased(c: char)
  {
    IsUpper(c) || IsLower(c)
  }

  /** The lower-case partner of an upper-case letter; anything else is kept. */
  function Lower(c: char): (d: char)
    ensures IsUpper(c) ==> IsLower(d) && Upper(d) == c
    ensures !IsUpper(c) ==> d == c
  {
    if IsUpper(c) then (c as int + 32) as char else c
  }

  /** The upper-case (and title-case) partner of a lower-case letter. */
  function Upper(c: char): (d: char)
    ensures IsLower(c) ==> IsUpper(d) && (d as int + 32) as char == c
    ensures !IsLower(c) ==> d == c
  {
    if IsLower(c) then (c as int - 32) as char else c
  }

  /** Title-casing the rest of a string, given whether the character before
      it was cased. */
  function TitleFrom(s: string, prevCased: bool): (t: string)
    ensures |t| == |s|
  {
    if s == [] then []
    else [if prevCased then Lower(s[0]) else Upper(s[0])] + TitleFrom(s[1..], IsCased(s[0]))
  }

  /** `s.title()`: the same characters up to case, of the same length. */
  function Title(s: string): (t: string)
    ensures |t| == |s|
    ensures forall i :: 0 <= i < |s| ==> Lower(t[i]) == Lower(s[i])
  {
    TitleLower(s, false);
    TitleFrom(s, false)
  }

  lemma {:induction false} TitleLower(s: string, prev: bool)
    ensures forall i :: 0 <= i < |s| ==> Lower(TitleFrom(s, prev)[i]) == Lower(s[i])
  {
    if s != [] {
      TitleLower(s[1..], IsCased(s[0]));
      var t := TitleFrom(s, prev);
      forall i | 0 <= i < |s| ensures Lower(t[i]) == Lower(s[i]) {
        if i > 0 {
          assert t[i] == TitleFrom(s[1..], IsCased(s[0]))[i - 1];
        }
      }
    }
  }

  /** The case pattern `title()` produces: a character after a cased one is
      not upper case, and a character after an uncased one (or first) is not
      lower case. */
  ghost predicate IsTitledFrom(s: string, prevCased: bool)
  {
    forall i {:trigger s[i]} :: 0 <= i < |s| ==>
      (if (if i == 0 then prevCased else IsCased(s[i - 1])) then !IsUpper(s[i]) else !IsLower(s[i]))
  }

  ghost predicate IsTitled(s: string)
  {
    IsTitledFrom(s, false)
  }

  lemma CaseKeepsCased(c: char)
    ensures IsCased(Lower(c)) == IsCased(c) && IsCased(Upper(c)) == IsCased(c)
  {
  }

  /** The case pattern, read one character at a time. */
  lemma TitledCons(s: string, prev: bool)
    requires s != []
    ensures IsTitledFrom(s, prev) <==>
      (if prev then !IsUpper(s[0]) else !IsLower(s[0])) && IsTitledFrom(s[1..], IsCased(s[0]))
  {
    var t := s[1..];
    if IsTitledFrom(s, prev) {
      forall i | 0 <= i < |t|
        ensures if (if i == 0 then IsCased(s[0]) else IsCased(t[i - 1])) then !IsUpper(t[i]) else !IsLower(t[i])
      {
        assert t[i] == s[i + 1];
        assert i > 0 ==> t[i - 1] == s[i];
      }
    }
    if (if prev then !IsUpper(s[0]) else !IsLower(s[0])) && IsTitledFrom(t, IsCased(s[0])) {
      forall i | 0 <= i < |s|
        ensures if (if i == 0 then prev else IsCased(s[i - 1])) then !IsUpper(s[i]) else !IsLower(s[i])
      {
        if i > 0 {
          assert s[i] == t[i - 1];
          assert i > 1 ==> s[i - 1] == t[i - 2];
        }
      }
    }
  }

  /** One step of `title()`: the first character, then the rest. */
  lemma TitleCons(s: string, prev: bool)
    requires s != []
    ensures TitleFrom(s, prev)[0] == if prev then Lower(s[0]) else Upper(s[0])
    ensures TitleFrom(s, prev)[1..] == TitleFrom(s[1..], IsCased(s[0]))
  {
  }

  lemma {:induction false} TitleFromTitled(s: string, prev: bool)
    ensures IsTitledFrom(TitleFrom(s, prev), prev)
  {
    if s != [] {
      var t := TitleFrom(s, prev);
      TitleFromTitled(s[1..], IsCased(s[0]));
      TitleCons(s, prev);
      CaseKeepsCased(s[0]);
      TitledCons(t, prev);
    }
  }

  /** Whatever it is given, `title()` returns a title-cased string. */
  lemma TitleIsTitled(s: string)
    ensures IsTitled(Title(s))
  {
    TitleFromTitled(s, false);
  }

  lemma {:induction false} TitledFromFixed(s: string, prev: bool)
    ensures IsTitledFrom(s, prev) <==> TitleFrom(s, prev) == s
  {
    if s != [] {
      var t := TitleFrom(s, prev);
      TitledFromFixed(s[1..], IsCased(s[0]));
      TitleCons(s, prev);
      TitledCons(s, prev);
      assert t == [t[0]] + t[1..];
      assert s == [s[0]] + s[1..];
    }
  }

  /** A string is left unchanged by `title()` exactly when it is already
      title-cased. */
  lemma TitleFixedIffTitled(s: string)
    ensures Title(s) == s <==> IsTitled(s)
  {
    TitledFromFixed(s, false);
  }

  /** Title-casing twice is title-casing once. */
  lemma TitleIdempotent(s: string)
    ensures Title(Title(s)) == Title(s)
  {
    TitleIsTitled(s);
    TitleFixedIffTitled(Title(s));
  }

  /** Equal up to case, letter by letter: `SAO PAULO`, `sao paulo`, `Sao Paulo`. */
  ghost predicate SameUpToCase(a: string, b: string)
  {
    |a| == |b| && forall i :: 0 <= i < |a| ==> Lower(a[i]) == Lower(b[i])
  }

  lemma LowerCased(c: char, d: char)
    requires Lower(c) == Lower(d)
    ensures IsCased(c) == IsCased(d) && Upper(c) == Upper(d) && Lower(c) == Lower(d)
  {
    CaseKeepsCased(c);
    CaseKeepsCased(d);
  }

  lemma {:induction false} TitleFromUpToCase(a: string, b: string, prev: bool)
    requires SameUpToCase(a, b)
    ensures TitleFrom(a, prev) == TitleFrom(b, prev)
  {
    if a != [] {
      LowerCased(a[0], b[0]);
      assert SameUpToCase(a[1..], b[1..]) by {
        forall i | 0 <= i < |a[1..]| ensures Lower(a[1..][i]) == Lower(b[1..][i]) {
          assert a[1..][i] == a[i + 1] && b[1..][i] == b[i + 1];
        }
      }
      TitleFromUpToCase(a[1..], b[1..], IsCased(a[0]));
    }
  }

  /** Names that differ only in letter case have the same title form: after
      `title()` the cities `SAO PAULO` and `sao paulo` are one city. */
  lemma TitleUpToCase(a: string, b: string)
    requires SameUpToCase(a, b)
    ensures Title(a) == Title(b)
  {
    TitleFromUpToCase(a, b, false);
  }
}
