/** The avatar initials of the page header: trim the full name, split it on single spaces,
    and take the first character of the first and of the last part, upper-cased. */
module Initials {

  import opened Wrappers

  /** The characters String.prototype.trim removes: the ECMAScript WhiteSpace and
      LineTerminator code points. */
  predicate IsWhitespace(c: char)
  {
    || ('\t' <= c <= '\r')
    || c == ' ' || c == '\U{00A0}' || c == '\U{1680}'
    || ('\U{2000}' <= c <= '\U{200A}')
    || c == '\U{2028}' || c == '\U{2029}' || c == '\U{202F}' || c == '\U{205F}'
    || c == '\U{3000}' || c == '\U{FEFF}'
  }

  predicate AllWhitespace(s: string)
  {
    forall i :: 0 <= i < |s| ==> IsWhitespace(s[i])
  }

  /** trimStart: the string from its first non-whitespace character on. */
  function TrimStart(s: string): (r: string)
    ensures |r| <= |s|
    ensures r == [] || !IsWhitespace(r[0])
  {
    if |s| == 0 || !IsWhitespace(s[0]) then s else TrimStart(s[1..])
  }

  /** trimEnd: the string up to its last non-whitespace character. */
  function TrimEnd(s: string): (r: string)
    ensures |r| <= |s|
    ensures r == [] || !IsWhitespace(r[|r| - 1])
    ensures r != [] ==> r[0] == s[0]
  {
    if |s| == 0 || !IsWhitespace(s[|s| - 1]) then s else TrimEnd(s[..|s| - 1])
  }

  /** trimStart keeps a suffix and drops only whitespace. */
  lemma {:induction false} TrimStartDropsWhitespace(s: string)
    ensures var r := TrimStart(s); r == s[|s| - |r|..] && AllWhitespace(s[..|s| - |r|])
    decreases |s|
  {
    if |s| > 0 && IsWhitespace(s[0]) {
      TrimStartDropsWhitespace(s[1..]);
      var r := TrimStart(s[1..]);
      assert s[1..][..|s| - 1 - |r|] == s[1..|s| - |r|];
    }
  }

  /** trimEnd keeps a prefix and drops only whitespace. */
  lemma {:induction false} TrimEndDropsWhitespace(s: string)
    ensures var r := TrimEnd(s); r == s[..|r|] && AllWhitespace(s[|r|..])
    decreases |s|
  {
    if |s| > 0 && IsWhitespace(s[|s| - 1]) {
      TrimEndDropsWhitespace(s[..|s| - 1]);
      var r := TrimEnd(s[..|s| - 1]);
      assert s[..|s| - 1][..|r|] == s[..|r|];
    }
  }

  /** trim: both ends stripped. */
  function Trim(s: string): (r: string)
    ensures |r| <= |s|
    ensures r == [] || (!IsWhitespace(r[0]) && !IsWhitespace(r[|r| - 1]))
  {
    TrimEnd(TrimStart(s))
  }

  /** The trimmed string is a slice `s[a..a + |r|]` with only whitespace outside it. */
  lemma TrimIsSlice(s: string)
    ensures var r := Trim(s);
      exists a :: 0 <= a <= |s| - |r| && r == s[a..a + |r|] && AllWhitespace(s[..a]) && AllWhitespace(s[a + |r|..])
  {
    var t := TrimStart(s);
    var r := TrimEnd(t);
    TrimStartDropsWhitespace(s);
    TrimEndDropsWhitespace(t);
    var a := |s| - |t|;
    assert r == s[a..a + |r|];
    assert s[a + |r|..] == t[|r|..];
  }

  /** The string a list of parts makes when put back together with `sep` between them. */
  function Join(parts: seq<string>, sep: char): string
    requires |parts| >= 1
  {
    if |parts| == 1 then parts[0] else parts[0] + [sep] + Join(parts[1..], sep)
  }

  /** String.prototype.split with a one-character separator: the pieces between separators,
      empty ones included, so there is always one more piece than separators. */
  function Split(s: string, sep: char): (parts: seq<string>)
    ensures |parts| >= 1
    decreases |s|
  {
    if |s| == 0 then [""]
    else
      var rest := Split(s[1..], sep);
      if s[0] == sep then [""] + rest
      else [[s[0]] + rest[0]] + rest[1..]
  }

  /** Joining the parts with the separator gives the string back. */
  lemma {:induction false} SplitJoin(s: string, sep: char)
    ensures Join(Split(s, sep), sep) == s
    decreases |s|
  {
    if |s| > 0 {
      SplitJoin(s[1..], sep);
      var rest := Split(s[1..], sep);
      assert s == [s[0]] + s[1..];
      if s[0] != sep && |rest| > 1 {
        assert Split(s, sep)[1..] == rest[1..];
      }
    }
  }

  /** There is more than one part exactly when the string holds the separator. */
  lemma {:induction false} SplitSingle(s: string, sep: char)
    ensures |Split(s, sep)| == 1 <==> sep !in s
    decreases |s|
  {
    if |s| > 0 {
      SplitSingle(s[1..], sep);
      assert s == [s[0]] + s[1..];
    }
  }

  /** No part holds the separator. */
  lemma {:induction false} SplitPartsFree(s: string, sep: char)
    ensures forall i :: 0 <= i < |Split(s, sep)| ==> sep !in Split(s, sep)[i]
    decreases |s|
  {
    if |s| > 0 {
      SplitPartsFree(s[1..], sep);
      var rest := Split(s[1..], sep);
      if s[0] != sep {
        forall i | 0 <= i < |Split(s, sep)|
          ensures sep !in Split(s, sep)[i]
        {
          if i > 0 {
            assert Split(s, sep)[i] == rest[i];
          }
        }
      }
    }
  }

  /** The first part is empty only when the string is empty or starts with the separator;
      otherwise it starts with the string's first character. */
  lemma SplitFirst(s: string, sep: char)
    ensures Split(s, sep)[0] == [] ==> s == [] || s[0] == sep
    ensures Split(s, sep)[0] != [] ==> Split(s, sep)[0][0] == s[0]
  {
  }

  /** The last part is a suffix of the string, empty only when the string is empty or ends
      with the separator. */
  lemma {:induction false} SplitLast(s: string, sep: char)
    ensures var last := Split(s, sep)[|Split(s, sep)| - 1];
      |last| <= |s| && last == s[|s| - |last|..]
    ensures Split(s, sep)[|Split(s, sep)| - 1] == [] ==> s == [] || s[|s| - 1] == sep
    decreases |s|
  {
    if |s| > 0 {
      SplitLast(s[1..], sep);
      var rest := Split(s[1..], sep);
      var last := rest[|rest| - 1];
      if |rest| > 1 || s[0] == sep {
        assert Split(s, sep)[|Split(s, sep)| - 1] == last;
        assert s[1..][|s| - 1 - |last|..] == s[|s| - |last|..];
      } else {
        SplitJoin(s[1..], sep);
        assert Split(s, sep) == [[s[0]] + rest[0]];
        assert s == [s[0]] + s[1..];
      }
    }
  }

  /** charAt: the character at `i` as a one-character string, or "" past the end. */
  function CharAt(s: string, i: nat): (r: string)
    ensures i < |s| ==> r == [s[i]]
    ensures i >= |s| ==> r == ""
  {
    if i < |s| then [s[i]] else ""
  }

  /** toUpperCase, applied character by character with the given case mapping. */
  function UpperCase(s: string, upper: char -> char): (r: string)
    ensures |r| == |s|
    ensures forall i :: 0 <= i < |s| ==> r[i] == upper(s[i])
  {
    seq(|s|, i requires 0 <= i < |s| => upper(s[i]))
  }

  /** The characters the initials are made of, before upper-casing, given the name and its
      trimmed form: with two or more parts after splitting the trimmed form, the first
      characters of the first and the last part; otherwise the first character of the name
      as given. */
  function InitialChars(name: string, trimmed: string): (r: string)
    requires name != ""
    ensures |r| <= 2
  {
    var names := Split(trimmed, ' ');
    if |names| >= 2 then CharAt(names[0], 0) + CharAt(names[|names| - 1], 0)
    else CharAt(name, 0)
  }

  /** getUserInitials as written: "U" without a name, otherwise the initial characters
      upper-cased. */
  function GetUserInitials(fullName: Option<string>, upper: char -> char): (r: string)
    ensures |r| <= 2
  {
    if fullName.None? || fullName.value == "" then "U"
    else UpperCase(InitialChars(fullName.value, Trim(fullName.value)), upper)
  }

  /** Without a name, or with an empty one, the avatar shows "U". */
  lemma NoNameInitials(upper: char -> char)
    ensures GetUserInitials(None, upper) == "U"
    ensures GetUserInitials(Some(""), upper) == "U"
  {
  }

  /** A string holding a space but neither starting nor ending with one splits into two or
      more parts; the first starts with the string's first character, and the last is the
      non-empty, space-free rest after the string's last space. */
  lemma TwoParts(t: string)
    requires ' ' in t && t[0] != ' ' && t[|t| - 1] != ' '
    ensures var names := Split(t, ' ');
      |names| >= 2 && names[0] != [] && names[0][0] == t[0]
    ensures var names := Split(t, ' '); var last := names[|names| - 1];
      && last != [] && |last| < |t| && t[|t| - |last| - 1] == ' ' && t[|t| - |last|..] == last && ' ' !in last
  {
    var names := Split(t, ' ');
    SplitSingle(t, ' ');
    SplitFirst(t, ' ');
    SplitLast(t, ' ');
    SplitJoin(t, ' ');
    JoinEndsWithLast(names, ' ');
    SplitPartsFree(t, ' ');
  }

  /** Put back together, the parts end with the separator followed by the last part. */
  lemma {:induction false} JoinEndsWithLast(parts: seq<string>, sep: char)
    requires |parts| >= 2
    ensures var j := Join(parts, sep); var last := parts[|parts| - 1];
      |j| > |last| && j[|j| - |last| - 1] == sep
    decreases |parts|
  {
    if |parts| > 2 {
      JoinEndsWithLast(parts[1..], sep);
    }
  }

  lemma InitialCharsSingle(name: string, t: string)
    requires name != "" && |Split(t, ' ')| == 1
    ensures InitialChars(name, t) == [name[0]]
  {
  }

  lemma InitialCharsPair(name: string, t: string)
    requires name != ""
    requires var names := Split(t, ' '); |names| >= 2 && names[0] != [] && names[|names| - 1] != []
    ensures var names := Split(t, ' ');
      InitialChars(name, t) == [names[0][0], names[|names| - 1][0]]
  {
  }

  lemma UpperPair(a: char, b: char, upper: char -> char)
    ensures UpperCase([a, b], upper) == [upper(a), upper(b)]
  {
  }

  lemma UpperSingle(a: char, upper: char -> char)
    ensures UpperCase([a], upper) == [upper(a)]
  {
  }

  /** The word after the last space of `t`: all of `t` when it has no space. */
  function AfterLastSpace(t: string): (w: string)
    ensures |w| <= |t| && w == t[|t| - |w|..] && ' ' !in w
    ensures |w| < |t| ==> t[|t| - |w| - 1] == ' '
  {
    if t == [] || t[|t| - 1] == ' ' then []
    else
      var w := AfterLastSpace(t[..|t| - 1]);
      assert t[..|t| - 1][|t| - 1 - |w|..] + [t[|t| - 1]] == t[|t| - |w| - 1..];
      w + [t[|t| - 1]]
  }

  /** A space-free suffix right after a space is the word after the last space. */
  lemma {:induction false} AfterLastSpaceUnique(t: string, w: string)
    requires |w| < |t| && w == t[|t| - |w|..] && ' ' !in w && t[|t| - |w| - 1] == ' '
    ensures w == AfterLastSpace(t)
    decreases |w|
  {
    if w != [] {
      var u := t[..|t| - 1];
      assert w[|w| - 1] == t[|t| - 1];
      assert w[..|w| - 1] == u[|u| - (|w| - 1)..];
      AfterLastSpaceUnique(u, w[..|w| - 1]);
    }
  }

  /** The pair case for any trimmed form that holds a space but neither starts nor ends
      with one. */
  lemma PairInitials(name: string, t: string, upper: char -> char)
    requires name != "" && ' ' in t && t[0] != ' ' && t[|t| - 1] != ' '
    ensures AfterLastSpace(t) != []
    ensures UpperCase(InitialChars(name, t), upper) == [upper(t[0]), upper(AfterLastSpace(t)[0])]
  {
    TwoParts(t);
    var names := Split(t, ' ');
    var last := names[|names| - 1];
    AfterLastSpaceUnique(t, last);
    InitialCharsPair(name, t);
    UpperPair(t[0], last[0], upper);
  }

  /** When the trimmed name holds a space, the initials are two characters: the first
      character of the trimmed name and the first character of its last word (the word
      after its last space), both upper-cased. Runs of spaces in between leave empty middle
      parts, which are ignored. */
  lemma TwoPartInitials(name: string, upper: char -> char)
    requires ' ' in Trim(name)
    ensures var t := Trim(name);
      && AfterLastSpace(t) != []
      && GetUserInitials(Some(name), upper) == [upper(t[0]), upper(AfterLastSpace(t)[0])]
  {
    var t := Trim(name);
    assert t[0] != ' ' && t[|t| - 1] != ' ';
    PairInitials(name, t, upper);
  }

  /** Without a space in the trimmed name, the initial is the name's own first character,
      taken before the trim. */
  lemma SinglePartInitial(name: string, upper: char -> char)
    requires name != "" && ' ' !in Trim(name)
    ensures GetUserInitials(Some(name), upper) == [upper(name[0])]
  {
    SplitSingle(Trim(name), ' ');
    InitialCharsSingle(name, Trim(name));
    UpperSingle(name[0], upper);
  }

  /** `x` is the upper-cased form of some character of `s`. */
  predicate UpperOf(x: char, s: string, upper: char -> char)
  {
    exists c :: c in s && x == upper(c)
  }

  /** Every initial of a non-empty name is the upper-cased form of a character of the name
      as given: the trim and the split only choose characters, they never make one up. */
  lemma InitialsFromName(name: string, upper: char -> char)
    requires name != ""
    ensures var r := GetUserInitials(Some(name), upper);
      forall i :: 0 <= i < |r| ==> UpperOf(r[i], name, upper)
  {
    var t := Trim(name);
    var r := GetUserInitials(Some(name), upper);
    if ' ' in t {
      TwoPartInitials(name, upper);
      TrimKeepsChars(name);
      LastWordStartsInside(t);
      UpperOfChar(name, t[0], r[0], upper);
      UpperOfChar(name, AfterLastSpace(t)[0], r[1], upper);
    } else {
      SinglePartInitial(name, upper);
      UpperOfChar(name, name[0], r[0], upper);
    }
  }

  /** Every character of the trimmed string is a character of the string. */
  lemma TrimKeepsChars(s: string)
    ensures forall c :: c in Trim(s) ==> c in s
  {
    var t := Trim(s);
    TrimIsSlice(s);
    var a :| 0 <= a <= |s| - |t| && t == s[a..a + |t|];
    forall c | c in t
      ensures c in s
    {
      var j :| 0 <= j < |t| && t[j] == c;
      assert s[a + j] == c;
    }
  }

  /** The last word's first character is a character of the string. */
  lemma LastWordStartsInside(t: string)
    requires AfterLastSpace(t) != []
    ensures AfterLastSpace(t)[0] in t
  {
    var w := AfterLastSpace(t);
    assert t[|t| - |w|] == w[0];
  }

  lemma UpperOfChar(s: string, c: char, x: char, upper: char -> char)
    requires c in s && x == upper(c)
    ensures UpperOf(x, s, upper)
  {
  }

  /** The initials are one or two characters, whatever the name. */
  lemma InitialsLength(fullName: Option<string>, upper: char -> char)
    ensures 1 <= |GetUserInitials(fullName, upper)| <= 2
  {
    if fullName.Some? && fullName.value != "" {
      if ' ' in Trim(fullName.value) {
        TwoPartInitials(fullName.value, upper);
      } else {
        SinglePartInitial(fullName.value, upper);
      }
    }
  }

  /** A name of three spaces yields a single space. */
  lemma BlankNameInitial(upper: char -> char)
    requires upper(' ') == ' '
    ensures GetUserInitials(Some("   "), upper) == " "
  {
    assert Trim("   ") == "" by {
      assert TrimStart("   ") == TrimStart("  ") == TrimStart(" ") == TrimStart("");
    }
    SinglePartInitial("   ", upper);
  }

  /** A single name with leading whitespace yields the upper-cased whitespace character, not
      the name's first letter. */
  lemma LeadingSpaceInitial(upper: char -> char)
    ensures GetUserInitials(Some(" Bob"), upper) == [upper(' ')]
  {
    assert Trim(" Bob") == "Bob" by {
      assert TrimStart(" Bob") == TrimStart("Bob") == "Bob";
      assert TrimEnd("Bob") == "Bob";
    }
    SinglePartInitial(" Bob", upper);
  }

  /** Trimming a trimmed string changes nothing. */
  lemma TrimIdempotent(s: string)
    ensures Trim(Trim(s)) == Trim(s)
  {
    var t := Trim(s);
    assert TrimStart(t) == t;
    assert TrimEnd(t) == t;
  }

  /** The initials of the name trimmed once up front, so that the single-part case also reads
      the trimmed name; a name of whitespace only yields "U", like an empty one. */
  function TrimmedInitials(fullName: Option<string>, upper: char -> char): (r: string)
    ensures 1 <= |r| <= 2
  {
    GetUserInitials(if fullName.None? then None else Some(Trim(fullName.value)), upper)
  }

  /** `x` is the upper-cased form of some character of `s` other than the space. */
  predicate UpperOfNonBlank(x: char, s: string, upper: char -> char)
  {
    exists c :: c in s && c != ' ' && x == upper(c)
  }

  /** The initials of a trimmed, non-empty name are upper-cased characters of it other
      than the space. */
  lemma TrimmedNameInitials(t: string, upper: char -> char)
    requires t != "" && Trim(t) == t
    ensures var r := GetUserInitials(Some(t), upper);
      forall i :: 0 <= i < |r| ==> UpperOfNonBlank(r[i], t, upper)
  {
    var r := GetUserInitials(Some(t), upper);
    assert t[0] != ' ';
    if ' ' in t {
      TwoPartInitials(t, upper);
      var w := AfterLastSpace(t);
      var j := |t| - |w|;
      assert t[j] == w[0] && t[j] != ' ';
      assert r[0] == upper(t[0]) && t[0] in t;
      assert r[1] == upper(t[j]) && t[j] in t;
    } else {
      SinglePartInitial(t, upper);
      assert r[0] == upper(t[0]) && t[0] in t;
    }
  }

  /** The corrected initials are "U" or are made only of upper-cased characters of the name
      other than the space, so a leading space can no longer become an initial. */
  lemma TrimmedInitialsNeverBlank(name: string, upper: char -> char)
    ensures var r := TrimmedInitials(Some(name), upper);
      r == "U" || forall i :: 0 <= i < |r| ==> UpperOfNonBlank(r[i], name, upper)
  {
    var t := Trim(name);
    var r := TrimmedInitials(Some(name), upper);
    assert r == GetUserInitials(Some(t), upper);
    if t == "" {
      NoNameInitials(upper);
    } else {
      TrimIdempotent(name);
      TrimmedNameInitials(t, upper);
      TrimIsSlice(name);
      var a :| 0 <= a <= |name| - |t| && t == name[a..a + |t|];
      SliceUpperOfNonBlank(name, t, a, r, upper);
    }
  }

  /** What is drawn from a slice of a name is drawn from the name. */
  lemma SliceUpperOfNonBlank(name: string, t: string, a: nat, r: string, upper: char -> char)
    requires a + |t| <= |name| && t == name[a..a + |t|]
    requires forall i :: 0 <= i < |r| ==> UpperOfNonBlank(r[i], t, upper)
    ensures forall i :: 0 <= i < |r| ==> UpperOfNonBlank(r[i], name, upper)
  {
    forall i | 0 <= i < |r|
      ensures UpperOfNonBlank(r[i], name, upper)
    {
      var c :| c in t && c != ' ' && r[i] == upper(c);
      var j :| 0 <= j < |t| && t[j] == c;
      assert name[a + j] == c;
    }
  }

  /** On every name that does not start with whitespace the corrected initials are the
      original ones. */
  lemma TrimmedInitialsAgree(name: string, upper: char -> char)
    requires name != [] && !IsWhitespace(name[0])
    ensures TrimmedInitials(Some(name), upper) == GetUserInitials(Some(name), upper)
  {
    assert TrimStart(name) == name;
    var t := Trim(name);
    TrimEndDropsWhitespace(name);
    assert t != [] && t[0] == name[0];
    TrimIdempotent(name);
    if ' ' in t {
      TwoPartInitials(name, upper);
      TwoPartInitials(t, upper);
    } else {
      SinglePartInitial(name, upper);
      SinglePartInitial(t, upper);
    }
  }
}
