/**
 * Characters and strings as the JavaScript regular-expression engine and
 * the String built-ins used by the source see them (non-Unicode mode).
 */
module Text {
  import opened Js

  predicate IsDigit(c: char) { '0' <= c <= '9' }
  predicate IsUpper(c: char) { 'A' <= c <= 'Z' }
  predicate IsLower(c: char) { 'a' <= c <= 'z' }
  predicate IsAsciiLetter(c: char) { IsUpper(c) || IsLower(c) }

  /** `\w`: the word characters of `\w` and `\b`. */
  predicate IsWordChar(c: char) { IsAsciiLetter(c) || IsDigit(c) || c == '_' }

  /** The pattern syntax characters (ECMA-262, section 22.2.1, SyntaxCharacter). */
  predicate IsSyntaxChar(c: char) {
    || c == '^' || c == '$' || c == '\\' || c == '.' || c == '*' || c == '+' || c == '?'
    || c == '(' || c == ')' || c == '[' || c == ']' || c == '{' || c == '}' || c == '|'
  }

  /** The line terminators, which `.` does not match. */
  predicate IsLineTerminator(c: char) {
    c == '\n' || c == '\r' || c == '\U{2028}' || c == '\U{2029}'
  }

  /** `\s`: white space and line terminators. */
  predicate IsJsWhitespace(c: char) {
    || c == '\t' || c == '\U{000B}' || c == '\U{000C}' || c == ' ' || c == '\U{00A0}'
    || c == '\U{1680}' || ('\U{2000}' <= c <= '\U{200A}') || c == '\U{202F}'
    || c == '\U{205F}' || c == '\U{3000}' || c == '\U{FEFF}'
    || IsLineTerminator(c)
  }

  /** ASCII lower-casing of one character; every other character is kept. */
  function LowerChar(c: char): (r: char)
    ensures IsUpper(c) ==> IsLower(r) && r as int == c as int + 32
    ensures !IsUpper(c) ==> r == c
  {
    if IsUpper(c) then (c as int + 32) as char else c
  }

  function Lower(s: string): (r: string)
    ensures |r| == |s|
    ensures forall i :: 0 <= i < |s| ==> r[i] == LowerChar(s[i])
  {
    if s == [] then [] else [LowerChar(s[0])] + Lower(s[1..])
  }

  /** Number of occurrences of `c` in `s`. */
  function CountOf(c: char, s: string): nat
  {
    if s == [] then 0 else CountOf(c, s[..|s| - 1]) + (if s[|s| - 1] == c then 1 else 0)
  }

  lemma {:induction false} CountOfAppend(c: char, s: string, t: string)
    ensures CountOf(c, s + t) == CountOf(c, s) + CountOf(c, t)
  {
    if t == [] {
      assert s + t == s;
    } else {
      assert (s + t)[..|s + t| - 1] == s + t[..|t| - 1];
      CountOfAppend(c, s, t[..|t| - 1]);
    }
  }

  lemma {:induction false} CountOfAbsent(c: char, s: string)
    requires forall i :: 0 <= i < |s| ==> s[i] != c
    ensures CountOf(c, s) == 0
  {
    if s != [] {
      CountOfAbsent(c, s[..|s| - 1]);
    }
  }

  /** A character found at one position and nowhere else occurs once. */
  lemma CountOfOnly(s: string, c: char, k: nat)
    requires k < |s| && s[k] == c
    requires forall i :: 0 <= i < |s| && i != k ==> s[i] != c
    ensures CountOf(c, s) == 1
  {
    assert s == s[..k] + [c] + s[k + 1..];
    assert forall i :: 0 <= i < k ==> s[..k][i] == s[i];
    var rest := s[k + 1..];
    assert forall i :: 0 <= i < |rest| ==> rest[i] == s[k + 1 + i];
    CountOfAbsent(c, s[..k]);
    CountOfAbsent(c, s[k + 1..]);
    CountOfAppend(c, s[..k], [c]);
    CountOfAppend(c, s[..k] + [c], s[k + 1..]);
    assert [c][..0] == [];
  }

  /** `s.indexOf(c)`: the first position holding `c`. */
  function IndexOf(s: string, c: char): (r: Option<nat>)
    ensures r.Some? ==> r.value < |s| && s[r.value] == c
                        && forall j :: 0 <= j < r.value ==> s[j] != c
    ensures r.None? ==> forall j :: 0 <= j < |s| ==> s[j] != c
  {
    if s == [] then None
    else if s[0] == c then Some(0)
    else match IndexOf(s[1..], c)
      case None => None
      case Some(k) => Some(k + 1)
  }

  /** `s.lastIndexOf(c)`: the last position holding `c`. */
  function LastIndexOf(s: string, c: char): (r: Option<nat>)
    ensures r.Some? ==> r.value < |s| && s[r.value] == c
                        && forall j :: r.value < j < |s| ==> s[j] != c
    ensures r.None? ==> forall j :: 0 <= j < |s| ==> s[j] != c
  {
    if s == [] then None
    else if s[|s| - 1] == c then Some(|s| - 1)
    else LastIndexOf(s[..|s| - 1], c)
  }

  /** The contract of `IndexOf` pins it down: the first occurrence is unique. */
  lemma IndexOfIs(s: string, c: char, k: nat)
    requires k < |s| && s[k] == c && forall j :: 0 <= j < k ==> s[j] != c
    ensures IndexOf(s, c) == Some(k)
  {
  }

  /** The contract of `LastIndexOf` pins it down: the last occurrence is unique. */
  lemma LastIndexOfIs(s: string, c: char, k: nat)
    requires k < |s| && s[k] == c && forall j :: k < j < |s| ==> s[j] != c
    ensures LastIndexOf(s, c) == Some(k)
  {
  }

  /** `s.replace(c, "")` with a one-character string pattern: only the first occurrence goes. */
  function RemoveFirst(s: string, c: char): (r: string)
    ensures |r| == if IndexOf(s, c).Some? then |s| - 1 else |s|
    ensures IndexOf(s, c).None? ==> r == s
  {
    if s == [] then []
    else if s[0] == c then s[1..]
    else [s[0]] + RemoveFirst(s[1..], c)
  }

  /** What is left is the string around the first occurrence, or the whole string when there is none. */
  lemma {:induction false} RemoveFirstAroundIndex(s: string, c: char)
    ensures IndexOf(s, c).None? ==> RemoveFirst(s, c) == s
    ensures IndexOf(s, c).Some? ==> RemoveFirst(s, c) == s[..IndexOf(s, c).value] + s[IndexOf(s, c).value + 1..]
  {
    if s != [] && s[0] != c {
      RemoveFirstAroundIndex(s[1..], c);
      if IndexOf(s, c).Some? {
        var k := IndexOf(s[1..], c).value;
        assert s[1..][..k] == s[1..k + 1];
        assert s[..k + 1] == [s[0]] + s[1..k + 1];
        assert s[1..][k + 1..] == s[k + 2..];
      }
    }
  }

  /** Exactly one `c` goes, and nothing else. */
  lemma {:induction false} RemoveFirstMultiset(s: string, c: char)
    ensures IndexOf(s, c).Some? ==> multiset(RemoveFirst(s, c)) + multiset{c} == multiset(s)
  {
    if s != [] {
      assert s == [s[0]] + s[1..];
      if s[0] != c {
        RemoveFirstMultiset(s[1..], c);
      }
    }
  }

  /** `s.split(sep)` with a one-character separator. */
  function Split(s: string, sep: char): (r: seq<string>)
    ensures |r| > 0
  {
    if s == [] then [[]]
    else
      var init := Split(s[..|s| - 1], sep);
      if s[|s| - 1] == sep then init + [[]]
      else init[..|init| - 1] + [init[|init| - 1] + [s[|s| - 1]]]
  }

  /** One more piece than there are separators. */
  lemma {:induction false} SplitCount(s: string, sep: char)
    ensures |Split(s, sep)| == CountOf(sep, s) + 1
  {
    if s != [] {
      SplitCount(s[..|s| - 1], sep);
    }
  }

  /** No piece holds the separator. */
  lemma {:induction false} SplitPieces(s: string, sep: char)
    ensures forall k :: 0 <= k < |Split(s, sep)| ==> sep !in Split(s, sep)[k]
  {
    if s != [] {
      SplitPieces(s[..|s| - 1], sep);
    }
  }

  /** Joining the pieces back with the separator gives the string again. */
  function Join(parts: seq<string>, sep: char): string
    requires |parts| > 0
  {
    if |parts| == 1 then parts[0] else Join(parts[..|parts| - 1], sep) + [sep] + parts[|parts| - 1]
  }

  lemma {:induction false} SplitJoin(s: string, sep: char)
    ensures Join(Split(s, sep), sep) == s
  {
    if s != [] {
      var init := Split(s[..|s| - 1], sep);
      SplitJoin(s[..|s| - 1], sep);
      if s[|s| - 1] != sep {
        var last := init[|init| - 1];
        if |init| == 1 {
          assert Join(init, sep) == last;
        } else {
          assert init[..|init| - 1][..|init| - 2] == init[..|init| - 2];
          assert Join(init[..|init| - 1] + [last + [s[|s| - 1]]], sep)
              == Join(init[..|init| - 1], sep) + [sep] + last + [s[|s| - 1]];
        }
        assert s == s[..|s| - 1] + [s[|s| - 1]];
      } else {
        assert (init + [[]])[..|init|] == init;
        assert s == s[..|s| - 1] + [sep];
      }
    }
  }

  /** How `Split` extends its pieces by one more character. */
  function AddChar(pieces: seq<string>, ch: char, sep: char): seq<string>
    requires |pieces| > 0
  {
    if ch == sep then pieces + [[]] else pieces[..|pieces| - 1] + [pieces[|pieces| - 1] + [ch]]
  }

  lemma SplitSnoc(s: string, ch: char, sep: char)
    ensures Split(s + [ch], sep) == AddChar(Split(s, sep), ch, sep)
  {
    assert (s + [ch])[..|s|] == s;
  }

  lemma AddCharAppend(p: seq<string>, q: seq<string>, ch: char, sep: char)
    requires |q| > 0
    ensures AddChar(p + q, ch, sep) == p + AddChar(q, ch, sep)
  {
    if ch != sep {
      assert (p + q)[..|p + q| - 1] == p + q[..|q| - 1];
    }
  }

  /** Splitting at a separator splits the two sides apart. */
  lemma {:induction false} SplitAtSep(a: string, b: string, sep: char)
    ensures Split(a + [sep] + b, sep) == Split(a, sep) + Split(b, sep)
  {
    if b == [] {
      SplitSnoc(a, sep, sep);
      assert a + [sep] + b == a + [sep];
      assert Split(b, sep) == [[]];
    } else {
      var b' := b[..|b| - 1];
      var ch := b[|b| - 1];
      SplitAtSep(a, b', sep);
      assert a + [sep] + b == (a + [sep] + b') + [ch];
      assert b == b' + [ch];
      SplitSnoc(a + [sep] + b', ch, sep);
      SplitSnoc(b', ch, sep);
      AddCharAppend(Split(a, sep), Split(b', sep), ch, sep);
    }
  }

  /** A string without the separator is one piece. */
  lemma {:induction false} SplitWithoutSep(x: string, sep: char)
    requires sep !in x
    ensures Split(x, sep) == [x]
  {
    if x != [] {
      SplitWithoutSep(x[..|x| - 1], sep);
      assert x[..|x| - 1] + [x[|x| - 1]] == x;
    }
  }

  /** Around another character, the first `c` goes from whichever side holds one first. */
  lemma {:induction false} RemoveFirstAround(x: string, sep: char, y: string, c: char)
    requires sep != c
    ensures RemoveFirst(x + [sep] + y, c)
         == if IndexOf(x, c).Some? then RemoveFirst(x, c) + [sep] + y else x + [sep] + RemoveFirst(y, c)
  {
    var w := x + [sep] + y;
    if x == [] {
      assert w == [sep] + y && w[1..] == y;
    } else {
      assert w[0] == x[0] && w[1..] == x[1..] + [sep] + y;
      if x[0] != c {
        RemoveFirstAround(x[1..], sep, y, c);
      }
    }
  }

  /** Removing a character brings no new one in. */
  lemma {:induction false} RemoveFirstKeepsAbsent(x: string, sep: char, c: char)
    requires sep !in x
    ensures sep !in RemoveFirst(x, c)
  {
    if x != [] && x[0] != c {
      RemoveFirstKeepsAbsent(x[1..], sep, c);
    }
  }

  /** `String(n)` for a natural number: its decimal digits. */
  function NatToString(n: nat): (r: string)
    ensures |r| > 0 && forall i :: 0 <= i < |r| ==> IsDigit(r[i])
  {
    if n < 10 then [(n + '0' as int) as char]
    else NatToString(n / 10) + [(n % 10 + '0' as int) as char]
  }

  /** The value of a non-empty string of decimal digits (`+s` for such a string). */
  function DigitsValue(s: string): nat
    requires forall i :: 0 <= i < |s| ==> IsDigit(s[i])
  {
    if s == [] then 0
    else
      assert IsDigit(s[|s| - 1]);
      10 * DigitsValue(s[..|s| - 1]) + (s[|s| - 1] as int - '0' as int)
  }

  lemma {:induction false} DigitsValueOfNatToString(n: nat)
    ensures DigitsValue(NatToString(n)) == n
  {
    if n >= 10 {
      var r := NatToString(n);
      assert r[..|r| - 1] == NatToString(n / 10);
      DigitsValueOfNatToString(n / 10);
    }
  }

  /** `t.startsWith(k)`. */
  predicate StartsWith(t: string, k: string) { |k| <= |t| && t[..|k|] == k }
}
