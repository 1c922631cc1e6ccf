/**
 * The three field validators of `Validator` (validation.js). Each one is a
 * single anchored regular expression in the source. Here each is a
 * hand-written recogniser over the characters of the input, next to a
 * declarative grammar that follows the structure of the regular expression,
 * and a lemma that the two accept the same strings.
 */
module Validation {
  import opened Js
  import opened Text

  /** Every character of `s` satisfies `p`. */
  predicate All(s: string, p: char -> bool)
  {
    forall i :: 0 <= i < |s| ==> p(s[i])
  }

  // ---------------------------------------------------------------------
  // E-mail: /^[a-z\d][a-z\d+.-]{1,19}@[\w.^+!?%&'$*\/=-]{1,15}\.[a-z]{1,5}$/i
  // Under the `i` flag `[a-z]` also takes A-Z; `\w` and `\d` are unchanged.
  // ---------------------------------------------------------------------

  predicate IsLocalFirst(c: char) { IsAsciiLetter(c) || IsDigit(c) }
  predicate IsLocalChar(c: char) { IsLocalFirst(c) || c == '+' || c == '.' || c == '-' }
  predicate IsDomainChar(c: char)
  {
    || IsWordChar(c) || c == '.' || c == '^' || c == '+' || c == '!' || c == '?' || c == '%'
    || c == '&' || c == '\'' || c == '$' || c == '*' || c == '/' || c == '=' || c == '-'
  }
  predicate IsTldChar(c: char) { IsAsciiLetter(c) }

  /** `local@domain.tld` with the `@` at `at` and the final dot at `dot`. */
  predicate EmailSplit(s: string, at: int, dot: int)
  {
    && 0 <= at < dot < |s|
    && s[at] == '@' && s[dot] == '.'
    && 2 <= at <= 20 && IsLocalFirst(s[0]) && All(s[1..at], IsLocalChar)
    && 1 <= dot - at - 1 <= 15 && All(s[at + 1..dot], IsDomainChar)
    && 1 <= |s| - dot - 1 <= 5 && All(s[dot + 1..], IsTldChar)
  }

  /** The language of the e-mail regular expression. */
  ghost predicate EmailGrammar(s: string)
  {
    exists at, dot :: EmailSplit(s, at, dot)
  }

  /** `[a-z\d][a-z\d+.-]{1,19}` */
  predicate IsLocalPart(local: string)
  {
    2 <= |local| <= 20 && IsLocalFirst(local[0]) && All(local[1..], IsLocalChar)
  }

  /** `[\w.^+!?%&'$*\/=-]{1,15}\.[a-z]{1,5}`: the part after the `@`. */
  predicate IsDomainPart(rest: string)
  {
    match LastIndexOf(rest, '.')
    case None => false
    case Some(d) =>
      1 <= d <= 15 && All(rest[..d], IsDomainChar)
      && 1 <= |rest| - d - 1 <= 5 && All(rest[d + 1..], IsTldChar)
  }

  /** `Validator.validateEmail`: split at the first `@`, then at the last dot. */
  predicate ValidateEmail(email: string)
  {
    match IndexOf(email, '@')
    case None => false
    case Some(at) => IsLocalPart(email[..at]) && IsDomainPart(email[at + 1..])
  }

  lemma EmailSound(s: string)
    requires ValidateEmail(s)
    ensures EmailGrammar(s)
  {
    var at := IndexOf(s, '@').value;
    var rest := s[at + 1..];
    var d := LastIndexOf(rest, '.').value;
    assert EmailSplit(s, at, at + 1 + d) by {
      assert s[at + 1..at + 1 + d] == rest[..d];
      assert s[at + 1 + d + 1..] == rest[d + 1..];
      assert s[1..at] == s[..at][1..];
    }
  }

  /** After the final dot come letters only, so no other dot. */
  lemma EmailSplitLastDot(s: string, at: int, dot: int)
    requires EmailSplit(s, at, dot)
    ensures forall j :: dot < j < |s| ==> s[j] != '.'
  {
    forall j | dot < j < |s|
      ensures s[j] != '.'
    {
      assert s[dot + 1..][j - dot - 1] == s[j];
    }
  }

  lemma EmailComplete(s: string, at: int, dot: int)
    requires EmailSplit(s, at, dot)
    ensures ValidateEmail(s)
  {
    EmailSplitOneAt(s, at, dot);
    IndexOfIs(s, '@', at);
    EmailSplitLastDot(s, at, dot);
    var rest := s[at + 1..];
    var d := dot - at - 1;
    assert forall j :: d < j < |rest| ==> rest[j] == s[at + 1 + j];
    LastIndexOfIs(rest, '.', d);
    assert rest[..d] == s[at + 1..dot];
    assert rest[d + 1..] == s[dot + 1..];
    assert s[..at][1..] == s[1..at];
  }

  /** The recogniser accepts exactly the language of the regular expression. */
  lemma EmailRecogniserIsGrammar(s: string)
    ensures ValidateEmail(s) <==> EmailGrammar(s)
  {
    if ValidateEmail(s) {
      EmailSound(s);
    }
    if EmailGrammar(s) {
      var at, dot :| EmailSplit(s, at, dot);
      EmailComplete(s, at, dot);
    }
  }

  /** In a split address, the `@` at `at` is the only one. */
  lemma EmailSplitOneAt(s: string, at: int, dot: int)
    requires EmailSplit(s, at, dot)
    ensures forall i :: 0 <= i < |s| && i != at ==> s[i] != '@'
  {
    forall i | 0 <= i < |s| && i != at
      ensures s[i] != '@'
    {
      if 0 < i < at {
        assert s[1..at][i - 1] == s[i];
      } else if at < i < dot {
        assert s[at + 1..dot][i - at - 1] == s[i];
      } else if dot < i {
        assert s[dot + 1..][i - dot - 1] == s[i];
      }
    }
  }

  /** An accepted address holds exactly one `@`. */
  lemma EmailHasOneAt(s: string)
    requires ValidateEmail(s)
    ensures CountOf('@', s) == 1
  {
    EmailSound(s);
    var at, dot :| EmailSplit(s, at, dot);
    EmailSplitOneAt(s, at, dot);
    CountOfOnly(s, '@', at);
  }

  /** A class that does not tell the cases apart holds of a lower-cased slice exactly when of the slice. */
  lemma AllLowerSlice(s: string, i: nat, j: nat, p: char -> bool)
    requires i <= j <= |s| && forall c :: p(LowerChar(c)) == p(c)
    ensures All(Lower(s)[i..j], p) == All(s[i..j], p)
  {
    assert forall k :: 0 <= k < j - i ==> Lower(s)[i..j][k] == LowerChar(s[i..j][k]);
  }

  lemma AllLowerSuffix(s: string, i: nat, p: char -> bool)
    requires i <= |s| && forall c :: p(LowerChar(c)) == p(c)
    ensures All(Lower(s)[i..], p) == All(s[i..], p)
  {
    assert forall k :: 0 <= k < |s| - i ==> Lower(s)[i..][k] == LowerChar(s[i..][k]);
  }

  /** The three character classes of an address do not tell the cases apart. */
  lemma EmailClassesCaseBlind()
    ensures forall c :: IsLocalChar(LowerChar(c)) == IsLocalChar(c)
    ensures forall c :: IsDomainChar(LowerChar(c)) == IsDomainChar(c)
    ensures forall c :: IsTldChar(LowerChar(c)) == IsTldChar(c)
    ensures forall c :: IsLocalFirst(LowerChar(c)) == IsLocalFirst(c)
    ensures forall c :: (LowerChar(c) == '@') == (c == '@') && (LowerChar(c) == '.') == (c == '.')
  {
  }

  lemma LowerLocal(s: string, at: nat)
    requires 1 <= at <= |s|
    ensures All(Lower(s)[1..at], IsLocalChar) == All(s[1..at], IsLocalChar)
  {
    EmailClassesCaseBlind();
    AllLowerSlice(s, 1, at, IsLocalChar);
  }

  lemma LowerDomain(s: string, at: nat, dot: nat)
    requires at + 1 <= dot <= |s|
    ensures All(Lower(s)[at + 1..dot], IsDomainChar) == All(s[at + 1..dot], IsDomainChar)
  {
    EmailClassesCaseBlind();
    AllLowerSlice(s, at + 1, dot, IsDomainChar);
  }

  lemma LowerTld(s: string, dot: nat)
    requires dot + 1 <= |s|
    ensures All(Lower(s)[dot + 1..], IsTldChar) == All(s[dot + 1..], IsTldChar)
  {
    EmailClassesCaseBlind();
    AllLowerSuffix(s, dot + 1, IsTldChar);
  }

  lemma LowerMarks(s: string, at: nat, dot: nat)
    requires at < |s| && dot < |s| && |s| > 0
    ensures IsLocalFirst(Lower(s)[0]) == IsLocalFirst(s[0])
    ensures (Lower(s)[at] == '@') == (s[at] == '@') && (Lower(s)[dot] == '.') == (s[dot] == '.')
  {
    EmailClassesCaseBlind();
  }

  lemma EmailSplitLower(s: string, at: int, dot: int)
    ensures EmailSplit(Lower(s), at, dot) == EmailSplit(s, at, dot)
  {
    if 2 <= at < dot < |s| {
      LowerLocal(s, at);
      LowerDomain(s, at, dot);
      LowerTld(s, dot);
      LowerMarks(s, at, dot);
    }
  }

  /** The `i` flag: changing the case of ASCII letters never changes the verdict. */
  lemma EmailIgnoresCase(s: string)
    ensures ValidateEmail(Lower(s)) == ValidateEmail(s)
  {
    EmailRecogniserIsGrammar(s);
    EmailRecogniserIsGrammar(Lower(s));
    if EmailGrammar(s) {
      var at, dot :| EmailSplit(s, at, dot);
      EmailSplitLower(s, at, dot);
    }
    if EmailGrammar(Lower(s)) {
      var at, dot :| EmailSplit(Lower(s), at, dot);
      EmailSplitLower(s, at, dot);
    }
  }

  /** A usual address is accepted. */
  lemma EmailExampleAccepted()
    ensures ValidateEmail("john.doe@example.com")
  {
    var s := "john.doe@example.com";
    assert s[1..8] == "ohn.doe";
    assert s[9..16] == "example";
    assert s[17..] == "com";
    EmailComplete(s, 8, 16);
  }

  lemma EmailExampleShortest()
    ensures ValidateEmail("ab@b.c")
  {
    var s := "ab@b.c";
    assert s[1..2] == "b" && s[3..4] == "b" && s[5..] == "c";
    EmailComplete(s, 2, 4);
  }

  /** An address must start with an ASCII letter or digit. */
  lemma EmailFirstChar(s: string)
    requires |s| > 0 && !IsLocalFirst(s[0])
    ensures !ValidateEmail(s)
  {
    if ValidateEmail(s) {
      EmailSound(s);
    }
  }

  /** The local part may not start with `+`. */
  lemma EmailExampleLeadingPlus()
    ensures !ValidateEmail("+john@example.com")
  {
    EmailFirstChar("+john@example.com");
  }

  /** The local part needs two characters, so a one-letter name is refused. */
  lemma EmailExampleOneLetter()
    ensures !ValidateEmail("a@b.c")
  {
    var s := "a@b.c";
    assert s[0] != '@' && s[1] == '@';
  }

  // ---------------------------------------------------------------------
  // Phone: /^[\s-]*(\+38)?([\s-]*\(([\s-]*\d[\s-]*){3}\)([\s-]*\d[\s-]*){7}|([\s-]*\d[\s-]*){10})$/
  // and at most 25 characters.
  // ---------------------------------------------------------------------

  /** `[\s-]` */
  predicate IsSep(c: char) { IsJsWhitespace(c) || c == '-' }
  predicate IsSepOrDigit(c: char) { IsSep(c) || IsDigit(c) }

  /** Only separators. */
  predicate Seps(s: string)
  {
    forall i :: 0 <= i < |s| ==> IsSep(s[i])
  }

  /** Only separators and digits. */
  predicate SepsOrDigits(s: string)
  {
    forall i :: 0 <= i < |s| ==> IsSepOrDigit(s[i])
  }

  lemma SepsAppend(s: string, t: string)
    ensures Seps(s + t) <==> Seps(s) && Seps(t)
  {
    if Seps(s + t) {
      forall i | 0 <= i < |s| ensures IsSep(s[i]) {
        assert (s + t)[i] == s[i];
      }
      forall i | 0 <= i < |t| ensures IsSep(t[i]) {
        assert (s + t)[|s| + i] == t[i];
      }
    }
    if Seps(s) && Seps(t) {
      forall i | 0 <= i < |s + t| ensures IsSep((s + t)[i]) {
        if i < |s| {
          assert (s + t)[i] == s[i];
        } else {
          assert (s + t)[i] == t[i - |s|];
        }
      }
    }
  }

  lemma SepsOrDigitsAppend(s: string, t: string)
    ensures SepsOrDigits(s + t) <==> SepsOrDigits(s) && SepsOrDigits(t)
  {
    if SepsOrDigits(s + t) {
      forall i | 0 <= i < |s| ensures IsSepOrDigit(s[i]) {
        assert (s + t)[i] == s[i];
      }
      forall i | 0 <= i < |t| ensures IsSepOrDigit(t[i]) {
        assert (s + t)[|s| + i] == t[i];
      }
    }
    if SepsOrDigits(s) && SepsOrDigits(t) {
      forall i | 0 <= i < |s + t| ensures IsSepOrDigit((s + t)[i]) {
        if i < |s| {
          assert (s + t)[i] == s[i];
        } else {
          assert (s + t)[i] == t[i - |s|];
        }
      }
    }
  }

  function DigitCount(s: string): nat
  {
    if s == [] then 0 else DigitCount(s[..|s| - 1]) + (if IsDigit(s[|s| - 1]) then 1 else 0)
  }

  lemma DigitCountOne(c: char)
    ensures DigitCount([c]) == if IsDigit(c) then 1 else 0
  {
    assert [c][..0] == [];
  }

  lemma {:induction false} DigitCountAppend(s: string, t: string)
    ensures DigitCount(s + t) == DigitCount(s) + DigitCount(t)
  {
    if t == [] {
      assert s + t == s;
    } else {
      assert (s + t)[..|s + t| - 1] == s + t[..|t| - 1];
      DigitCountAppend(s, t[..|t| - 1]);
    }
  }

  lemma {:induction false} DigitCountOfSeps(s: string)
    requires Seps(s)
    ensures DigitCount(s) == 0
  {
    if s != [] {
      DigitCountOfSeps(s[..|s| - 1]);
    }
  }

  /** Separators and digits only, with exactly `n` digits. */
  predicate DigitRun(t: string, n: nat)
  {
    SepsOrDigits(t) && DigitCount(t) == n
  }

  /** A run without digits is made of separators. */
  lemma {:induction false} SepsOnly(s: string)
    requires DigitRun(s, 0)
    ensures Seps(s)
  {
    if s != [] {
      var init := s[..|s| - 1];
      assert SepsOrDigits(init) by {
        forall i | 0 <= i < |init| ensures IsSepOrDigit(init[i]) {
          assert init[i] == s[i];
        }
      }
      SepsOnly(init);
      forall i | 0 <= i < |s| ensures IsSep(s[i]) {
        if i < |s| - 1 {
          assert init[i] == s[i];
        }
      }
    }
  }

  lemma DigitRunAppend(s: string, t: string, m: nat, n: nat)
    requires DigitRun(s, m) && DigitRun(t, n)
    ensures DigitRun(s + t, m + n)
  {
    DigitCountAppend(s, t);
    SepsOrDigitsAppend(s, t);
  }

  /** The position of the last digit of a string that has one. */
  function LastDigit(t: string): (j: nat)
    requires DigitCount(t) > 0
    ensures j < |t| && IsDigit(t[j]) && forall m :: j < m < |t| ==> !IsDigit(t[m])
  {
    if IsDigit(t[|t| - 1]) then |t| - 1 else LastDigit(t[..|t| - 1])
  }

  /** Cutting a run just before its last digit. */
  lemma DigitRunAtLast(t: string, n: nat)
    requires n >= 1 && DigitRun(t, n)
    ensures LastDigit(t) < |t|
    ensures DigitRun(t[..LastDigit(t)], n - 1) && DigitRun(t[LastDigit(t)..], 1)
    ensures Seps(t[LastDigit(t) + 1..])
  {
    var j := LastDigit(t);
    var head, tail := t[..j], t[j + 1..];
    assert t[j..] == [t[j]] + tail;
    assert t == head + t[j..];
    SepsOrDigitsAppend(head, t[j..]);
    SepsOrDigitsAppend([t[j]], tail);
    assert Seps(tail) by {
      forall m | 0 <= m < |tail| ensures IsSep(tail[m]) {
        assert tail[m] == t[j + 1 + m];
        assert !IsDigit(t[j + 1 + m]);
      }
    }
    DigitCountOfSeps(tail);
    DigitCountOne(t[j]);
    DigitCountAppend([t[j]], tail);
    DigitCountAppend(head, t[j..]);
  }

  /** `[\s-]*\d[\s-]*`: one digit with separators around it. */
  ghost predicate SepDigitSep(u: string)
  {
    exists i :: 0 <= i < |u| && Seps(u[..i]) && IsDigit(u[i]) && Seps(u[i + 1..])
  }

  lemma SepDigitSepIsRunOfOne(u: string)
    ensures SepDigitSep(u) <==> DigitRun(u, 1)
  {
    if SepDigitSep(u) {
      var i :| 0 <= i < |u| && Seps(u[..i]) && IsDigit(u[i]) && Seps(u[i + 1..]);
      OneDigitAmongSeps(u, i);
    }
    if DigitRun(u, 1) {
      var j := LastDigit(u);
      DigitRunAtLast(u, 1);
      SepsOnly(u[..j]);
      assert 0 <= j < |u| && Seps(u[..j]) && IsDigit(u[j]) && Seps(u[j + 1..]);
    }
  }

  lemma OneDigitAmongSeps(u: string, i: int)
    requires 0 <= i < |u| && Seps(u[..i]) && IsDigit(u[i]) && Seps(u[i + 1..])
    ensures DigitRun(u, 1)
  {
    var head, tail := u[..i], u[i + 1..];
    assert u == head + ([u[i]] + tail);
    DigitCountOfSeps(head);
    DigitCountOfSeps(tail);
    DigitCountOne(u[i]);
    DigitCountAppend([u[i]], tail);
    DigitCountAppend(head, [u[i]] + tail);
    assert SepsOrDigits(head) by {
      forall k | 0 <= k < |head| ensures IsSepOrDigit(head[k]) {
        assert IsSep(head[k]);
      }
    }
    assert SepsOrDigits(tail) by {
      forall k | 0 <= k < |tail| ensures IsSepOrDigit(tail[k]) {
        assert IsSep(tail[k]);
      }
    }
    SepsOrDigitsAppend([u[i]], tail);
    SepsOrDigitsAppend(head, [u[i]] + tail);
  }

  /** `([\s-]*\d[\s-]*){n}`, read literally: `n` consecutive pieces of that shape. */
  ghost predicate Repeat(t: string, n: nat)
    decreases n
  {
    if n == 0 then t == []
    else exists k :: 0 <= k <= |t| && Repeat(t[..k], n - 1) && SepDigitSep(t[k..])
  }

  /** The repeated group matches exactly the runs with `n` digits. */
  lemma RepeatIsDigitRun(t: string, n: nat)
    requires n >= 1
    ensures Repeat(t, n) <==> DigitRun(t, n)
  {
    if Repeat(t, n) {
      RepeatToRun(t, n);
    }
    if DigitRun(t, n) {
      RunToRepeat(t, n);
    }
  }

  lemma {:induction false} RepeatToRun(t: string, n: nat)
    requires n >= 1 && Repeat(t, n)
    ensures DigitRun(t, n)
    decreases n
  {
    var k :| 0 <= k <= |t| && Repeat(t[..k], n - 1) && SepDigitSep(t[k..]);
    SepDigitSepIsRunOfOne(t[k..]);
    if n == 1 {
      assert t[..k] == [];
      assert t[k..] == t;
    } else {
      RepeatToRun(t[..k], n - 1);
      RunsJoin(t, k, n - 1);
    }
  }

  lemma RunsJoin(t: string, k: nat, n: nat)
    requires k <= |t| && DigitRun(t[..k], n) && DigitRun(t[k..], 1)
    ensures DigitRun(t, n + 1)
  {
    DigitRunAppend(t[..k], t[k..], n, 1);
    assert t == t[..k] + t[k..];
  }

  lemma {:induction false} RunToRepeat(t: string, n: nat)
    requires n >= 1 && DigitRun(t, n)
    ensures Repeat(t, n)
    decreases n
  {
    if n == 1 {
      SepDigitSepIsRunOfOne(t);
      assert t[..0] == [] && t[0..] == t;
      assert Repeat(t[..0], 0);
    } else {
      var j := LastDigit(t);
      DigitRunAtLast(t, n);
      RunToRepeat(t[..j], n - 1);
      SepDigitSepIsRunOfOne(t[j..]);
      assert Repeat(t[..j], n - 1) && SepDigitSep(t[j..]);
    }
  }

  /** The bracketed body: separators, `(`, three digits, `)`, seven digits. */
  predicate Bracketed(t: string, p: int, q: int)
  {
    && 0 <= p < q < |t| && Seps(t[..p]) && t[p] == '(' && t[q] == ')'
    && DigitRun(t[p + 1..q], 3) && DigitRun(t[q + 1..], 7)
  }

  /** The body after the optional `+38`: bracketed operator code plus seven digits, or ten digits. */
  ghost predicate PhoneBodyGrammar(t: string)
  {
    Repeat(t, 10) || exists p, q :: BracketedGrammar(t, p, q)
  }

  /** The body in terms of digit counts. */
  ghost predicate BodyByRuns(t: string)
  {
    DigitRun(t, 10) || exists p, q :: Bracketed(t, p, q)
  }

  /** The bracketed alternative of the grammar, for given bracket positions. */
  ghost predicate BracketedGrammar(t: string, p: int, q: int)
  {
    && 0 <= p < q < |t| && Seps(t[..p]) && t[p] == '(' && t[q] == ')'
    && Repeat(t[p + 1..q], 3) && Repeat(t[q + 1..], 7)
  }

  lemma BracketedGrammarIsBracketed(t: string, p: int, q: int)
    requires 0 <= p < q < |t|
    ensures BracketedGrammar(t, p, q) <==> Bracketed(t, p, q)
  {
    RepeatIsDigitRun(t[p + 1..q], 3);
    RepeatIsDigitRun(t[q + 1..], 7);
  }

  lemma BodyGrammarByRuns(t: string)
    ensures PhoneBodyGrammar(t) <==> BodyByRuns(t)
  {
    RepeatIsDigitRun(t, 10);
    if exists p, q :: BracketedGrammar(t, p, q) {
      var p, q :| BracketedGrammar(t, p, q);
      BracketedGrammarIsBracketed(t, p, q);
    }
    if exists p, q :: Bracketed(t, p, q) {
      var p, q :| Bracketed(t, p, q);
      BracketedGrammarIsBracketed(t, p, q);
    }
  }

  /** The first position at or after `i` that does not hold a separator. */
  function SkipSeps(s: string, i: nat): (j: nat)
    requires i <= |s|
    ensures i <= j <= |s| && Seps(s[i..j]) && (j < |s| ==> !IsSep(s[j]))
    decreases |s| - i
  {
    if i == |s| || !IsSep(s[i]) then i
    else
      var j := SkipSeps(s, i + 1);
      assert s[i..j] == [s[i]] + s[i + 1..j];
      j
  }

  /** Leading separators followed by a non-separator pin down `SkipSeps`. */
  lemma SkipSepsIs(t: string, p: nat)
    requires p <= |t| && Seps(t[..p]) && (p < |t| ==> !IsSep(t[p]))
    ensures SkipSeps(t, 0) == p
  {
    assert forall k :: 0 <= k < p ==> t[..p][k] == t[k];
    SkipSepsFrom(t, 0, p);
  }

  lemma {:induction false} SkipSepsFrom(t: string, i: nat, p: nat)
    requires i <= p <= |t| && (forall k :: i <= k < p ==> IsSep(t[k])) && (p < |t| ==> !IsSep(t[p]))
    ensures SkipSeps(t, i) == p
    decreases p - i
  {
    if i < p {
      SkipSepsFrom(t, i + 1, p);
    }
  }

  /** Recognises the body: finds the first non-separator and decides on the bracket. */
  predicate PhoneBody(t: string)
  {
    var p := SkipSeps(t, 0);
    if p < |t| && t[p] == '(' then CodeAndNumber(t[p + 1..]) else DigitRun(t, 10)
  }

  /** After the `(`: the first `)` closes a three-digit code, seven digits follow it. */
  predicate CodeAndNumber(u: string)
  {
    match IndexOf(u, ')')
    case None => false
    case Some(k) => DigitRun(u[..k], 3) && DigitRun(u[k + 1..], 7)
  }

  lemma BracketedIsFound(t: string, p: int, q: int)
    requires Bracketed(t, p, q)
    ensures p == SkipSeps(t, 0) && IndexOf(t[p + 1..], ')') == Some(q - p - 1)
  {
    SkipSepsIs(t, p);
    var w := t[p + 1..q];
    var rest := t[p + 1..];
    assert rest[q - p - 1] == ')';
    forall j | 0 <= j < q - p - 1 ensures rest[j] != ')' {
      assert rest[j] == w[j];
      assert IsSepOrDigit(w[j]);
    }
  }

  lemma PhoneBodyByRuns(t: string)
    ensures PhoneBody(t) <==> BodyByRuns(t)
  {
    if PhoneBody(t) {
      PhoneBodySound(t);
    }
    if BodyByRuns(t) {
      PhoneBodyComplete(t);
    }
  }

  lemma PhoneBodySound(t: string)
    requires PhoneBody(t)
    ensures BodyByRuns(t)
  {
    var p := SkipSeps(t, 0);
    if p < |t| && t[p] == '(' {
      var rest := t[p + 1..];
      var k := IndexOf(rest, ')').value;
      var q := p + 1 + k;
      assert t[q] == rest[k];
      assert t[..p] == t[0..p];
      assert rest[..k] == t[p + 1..q] && rest[k + 1..] == t[q + 1..];
      assert Bracketed(t, p, q);
    }
  }

  lemma PhoneBodyComplete(t: string)
    requires BodyByRuns(t)
    ensures PhoneBody(t)
  {
    if DigitRun(t, 10) {
      RunBodyComplete(t);
    } else {
      var p, q :| Bracketed(t, p, q);
      BracketedBodyComplete(t, p, q);
    }
  }

  lemma RunBodyComplete(t: string)
    requires DigitRun(t, 10)
    ensures PhoneBody(t)
  {
    var p := SkipSeps(t, 0);
    if p < |t| {
      assert IsSepOrDigit(t[p]);
    }
  }

  lemma BracketedBodyComplete(t: string, p: int, q: int)
    requires Bracketed(t, p, q)
    ensures PhoneBody(t)
  {
    BracketedIsFound(t, p, q);
    var rest := t[p + 1..];
    assert rest[..q - p - 1] == t[p + 1..q] && rest[q - p..] == t[q + 1..];
  }

  lemma PhoneBodyIsGrammar(t: string)
    ensures PhoneBody(t) <==> PhoneBodyGrammar(t)
  {
    BodyGrammarByRuns(t);
    PhoneBodyByRuns(t);
  }

  /** A body never starts with `+`. */
  lemma BodyNotPlus(u: string)
    requires BodyByRuns(u) && |u| > 0
    ensures u[0] != '+'
  {
    if !DigitRun(u, 10) {
      var p, q :| Bracketed(u, p, q);
      if p > 0 {
        assert u[..p][0] == u[0];
      }
    }
  }

  /** Leading separators can be moved from the first `[\s-]*` of the body to the outer one. */
  lemma DropLeadingSeps(t: string, m: nat)
    requires m <= |t| && Seps(t[..m]) && BodyByRuns(t)
    ensures BodyByRuns(t[m..])
  {
    if DigitRun(t, 10) {
      DropLeadingSepsOfRun(t, m);
    } else {
      var p, q :| Bracketed(t, p, q);
      DropLeadingSepsOfBracketed(t, m, p, q);
    }
  }

  lemma DropLeadingSepsOfRun(t: string, m: nat)
    requires m <= |t| && Seps(t[..m]) && DigitRun(t, 10)
    ensures DigitRun(t[m..], 10)
  {
    assert t == t[..m] + t[m..];
    SepsOrDigitsAppend(t[..m], t[m..]);
    DigitCountOfSeps(t[..m]);
    DigitCountAppend(t[..m], t[m..]);
  }

  lemma DropLeadingSepsOfBracketed(t: string, m: nat, p: int, q: int)
    requires m <= |t| && Seps(t[..m]) && Bracketed(t, p, q)
    ensures Bracketed(t[m..], p - m, q - m)
  {
    var u := t[m..];
    assert forall i :: 0 <= i < m ==> IsSep(t[i]) by {
      forall i | 0 <= i < m ensures IsSep(t[i]) {
        assert t[..m][i] == t[i];
      }
    }
    assert !IsSep(t[p]);
    var lead := u[..p - m];
    assert Seps(lead) by {
      forall i | 0 <= i < |lead| ensures IsSep(lead[i]) {
        assert lead[i] == t[..p][m + i];
      }
    }
    assert u[p - m + 1..q - m] == t[p + 1..q];
    assert u[q - m + 1..] == t[q + 1..];
  }

  /** The language of the phone regular expression. */
  ghost predicate PhoneGrammar(s: string)
  {
    exists a, b :: && 0 <= a <= b <= |s| && Seps(s[..a])
                   && (s[a..b] == "" || s[a..b] == "+38") && PhoneBodyGrammar(s[b..])
  }

  /** The regular-expression test of `validatePhone`, without the length bound. */
  predicate PhonePattern(s: string)
  {
    var a := SkipSeps(s, 0);
    var b := if StartsWith(s[a..], "+38") then a + 3 else a;
    PhoneBody(s[b..])
  }

  /** `Validator.validatePhone`: the pattern and at most 25 characters. */
  predicate ValidatePhone(phone: string)
  {
    PhonePattern(phone) && |phone| <= 25
  }

  lemma PhonePatternSound(s: string)
    requires PhonePattern(s)
    ensures PhoneGrammar(s)
  {
    var a := SkipSeps(s, 0);
    var b := if StartsWith(s[a..], "+38") then a + 3 else a;
    PhoneBodyIsGrammar(s[b..]);
    assert s[..a] == s[0..a];
    assert s[a..b] == "" || s[a..b] == s[a..][..3];
  }

  lemma PhonePatternComplete(s: string, a': int, b': int)
    requires && 0 <= a' <= b' <= |s| && Seps(s[..a'])
             && (s[a'..b'] == "" || s[a'..b'] == "+38") && PhoneBodyGrammar(s[b'..])
    ensures PhonePattern(s)
  {
    BodyGrammarByRuns(s[b'..]);
    if b' == a' {
      BareComplete(s, a');
    } else {
      PhoneBodyByRuns(s[b'..]);
      PrefixedComplete(s, a', b');
    }
  }

  /** With `+38`: the prefix sits right after the leading separators. */
  lemma PrefixedComplete(s: string, a: nat, b: nat)
    requires b == a + 3 <= |s| && Seps(s[..a]) && s[a..b] == "+38" && PhoneBody(s[b..])
    ensures PhonePattern(s)
  {
    assert s[a] == s[a..b][0];
    SkipSepsIs(s, a);
    assert s[a..][..3] == s[a..b];
    PatternAt(s, a, b);
  }

  /** `PhonePattern` once the two positions it computes are known. */
  lemma PatternAt(s: string, a: nat, b: nat)
    requires a <= |s| && SkipSeps(s, 0) == a
    requires b == (if StartsWith(s[a..], "+38") then a + 3 else a) && b <= |s| && PhoneBody(s[b..])
    ensures PhonePattern(s)
  {
  }

  /** Without `+38`: the separators before the body all go to the outer `[\s-]*`. */
  lemma BareComplete(s: string, a': int)
    requires 0 <= a' <= |s| && Seps(s[..a']) && BodyByRuns(s[a'..])
    ensures PhonePattern(s)
  {
    var a := SkipSeps(s, 0);
    BodyAfterSeps(s, a');
    NoPrefixBeforeBody(s[a..]);
    PhoneBodyByRuns(s[a..]);
    PatternAt(s, a, a);
  }

  lemma BodyAfterSeps(s: string, a': int)
    requires 0 <= a' <= |s| && Seps(s[..a']) && BodyByRuns(s[a'..])
    ensures BodyByRuns(s[SkipSeps(s, 0)..])
  {
    var a := SkipSeps(s, 0);
    var t := s[a'..];
    assert forall i :: 0 <= i < a' ==> IsSep(s[i]) by {
      forall i | 0 <= i < a' ensures IsSep(s[i]) {
        assert s[..a'][i] == s[i];
      }
    }
    assert a' <= a;
    var lead := t[..a - a'];
    assert Seps(lead) by {
      forall i | 0 <= i < |lead| ensures IsSep(lead[i]) {
        assert lead[i] == s[0..a][a' + i];
      }
    }
    DropLeadingSeps(t, a - a');
    assert t[a - a'..] == s[a..];
  }

  lemma NoPrefixBeforeBody(u: string)
    requires BodyByRuns(u)
    ensures !StartsWith(u, "+38")
  {
    if |u| > 0 {
      BodyNotPlus(u);
    }
  }

  /** The recogniser accepts exactly the language of the regular expression. */
  lemma PhoneRecogniserIsGrammar(s: string)
    ensures PhonePattern(s) <==> PhoneGrammar(s)
  {
    if PhonePattern(s) {
      PhonePatternSound(s);
    }
    if PhoneGrammar(s) {
      var a, b :| && 0 <= a <= b <= |s| && Seps(s[..a])
                  && (s[a..b] == "" || s[a..b] == "+38") && PhoneBodyGrammar(s[b..]);
      PhonePatternComplete(s, a, b);
    }
  }

  /** The length cap wins even when the pattern matches. */
  lemma PhoneLengthCap(s: string)
    requires |s| > 25
    ensures !ValidatePhone(s)
  {
  }

  /** The format shown in the source comment is accepted. */
  lemma PhoneExample()
    ensures ValidatePhone("+38 (099) 567 8901")
  {
    var s := "+38 (099) 567 8901";
    ExampleBody();
    assert s[3..] == " (099) 567 8901";
    PhoneBodyByRuns(s[3..]);
    assert s[..0] == [] && s[0..3] == "+38";
    PrefixedComplete(s, 0, 3);
  }

  lemma ExampleBody()
    ensures Bracketed(" (099) 567 8901", 1, 5)
  {
    var t := " (099) 567 8901";
    assert t[..1] == " " && t[2..5] == "099" && t[6..] == " 567 8901";
    ExampleCode();
    ExampleNumber();
  }

  lemma ExampleCode()
    ensures DigitRun("099", 3)
  {
    DigitCountAppend("09", "9");
    DigitCountAppend("0", "9");
    DigitCountOne('0');
    DigitCountOne('9');
    assert "09" == "0" + "9" && "099" == "09" + "9";
  }

  lemma ExampleNumber()
    ensures DigitRun(" 567 8901", 7)
  {
    DigitCountAppend(" 567", " 8901");
    DigitCountAppend(" 5", "67");
    DigitCountAppend(" 89", "01");
    DigitCountAppend(" ", "5");
    DigitCountAppend("6", "7");
    DigitCountAppend(" ", "89");
    DigitCountAppend("8", "9");
    DigitCountAppend("0", "1");
    DigitCountOne(' ');
    DigitCountOne('0');
    DigitCountOne('1');
    DigitCountOne('5');
    DigitCountOne('6');
    DigitCountOne('7');
    DigitCountOne('8');
    DigitCountOne('9');
    assert " 5" == " " + "5" && "67" == "6" + "7" && " 567" == " 5" + "67";
    assert "89" == "8" + "9" && "01" == "0" + "1" && " 89" == " " + "89";
    assert " 8901" == " 89" + "01" && " 567 8901" == " 567" + " 8901";
  }

  // ---------------------------------------------------------------------
  // Password: /^(?=.*\d)(?=.*[a-z])(?=.*[A-Z])[\w_]{8,}$/  (case-sensitive)
  // ---------------------------------------------------------------------

  /** `(?=.*X)` at the start: some `X` is reached before any line terminator. */
  ghost predicate LookaheadFinds(s: string, x: char -> bool)
  {
    exists i :: 0 <= i < |s| && x(s[i]) && forall j :: 0 <= j < i ==> !IsLineTerminator(s[j])
  }

  /** The language of the password regular expression. */
  ghost predicate PasswordGrammar(s: string)
  {
    && LookaheadFinds(s, IsDigit) && LookaheadFinds(s, IsLower) && LookaheadFinds(s, IsUpper)
    && |s| >= 8 && All(s, IsWordChar)
  }

  /** One left-to-right pass that remembers which kinds of character it has seen. */
  predicate ScanPassword(s: string, i: nat, digit: bool, lower: bool, upper: bool)
    requires i <= |s|
    decreases |s| - i
  {
    if i == |s| then digit && lower && upper
    else IsWordChar(s[i])
         && ScanPassword(s, i + 1, digit || IsDigit(s[i]), lower || IsLower(s[i]), upper || IsUpper(s[i]))
  }

  /** `Validator.validatePassword` */
  predicate ValidatePassword(password: string)
  {
    |password| >= 8 && ScanPassword(password, 0, false, false, false)
  }

  predicate HasSome(s: string, x: char -> bool)
  {
    exists i :: 0 <= i < |s| && x(s[i])
  }

  lemma {:induction false} ScanPasswordMeaning(s: string, i: nat, digit: bool, lower: bool, upper: bool)
    requires i <= |s|
    ensures ScanPassword(s, i, digit, lower, upper)
        <==> All(s[i..], IsWordChar)
             && (digit || HasSome(s[i..], IsDigit))
             && (lower || HasSome(s[i..], IsLower))
             && (upper || HasSome(s[i..], IsUpper))
    decreases |s| - i
  {
    if i < |s| {
      ScanPasswordMeaning(s, i + 1, digit || IsDigit(s[i]), lower || IsLower(s[i]), upper || IsUpper(s[i]));
      assert s[i..] == [s[i]] + s[i + 1..];
      forall x: char -> bool
        ensures HasSome(s[i..], x) <==> x(s[i]) || HasSome(s[i + 1..], x)
      {
        if HasSome(s[i..], x) {
          var k :| 0 <= k < |s[i..]| && x(s[i..][k]);
          if k > 0 { assert s[i + 1..][k - 1] == s[i..][k]; }
        }
        if HasSome(s[i + 1..], x) {
          var k :| 0 <= k < |s[i + 1..]| && x(s[i + 1..][k]);
          assert s[i..][k + 1] == s[i + 1..][k];
        }
      }
    }
  }

  /** The validator in plain words: long enough, word characters only, and all three kinds. */
  lemma PasswordRule(s: string)
    ensures ValidatePassword(s)
        <==> |s| >= 8 && All(s, IsWordChar)
             && HasSome(s, IsDigit) && HasSome(s, IsLower) && HasSome(s, IsUpper)
  {
    ScanPasswordMeaning(s, 0, false, false, false);
    assert s[0..] == s;
  }

  /** The recogniser accepts exactly the language of the regular expression. */
  lemma PasswordRecogniserIsGrammar(s: string)
    ensures ValidatePassword(s) <==> PasswordGrammar(s)
  {
    PasswordRule(s);
    if All(s, IsWordChar) {
      forall x: char -> bool | HasSome(s, x)
        ensures LookaheadFinds(s, x)
      {
        var i :| 0 <= i < |s| && x(s[i]);
        assert forall j :: 0 <= j < i ==> !IsLineTerminator(s[j]) by {
          forall j | 0 <= j < i ensures !IsLineTerminator(s[j]) {
            assert IsWordChar(s[j]);
          }
        }
      }
    }
  }

  /** Unlike the e-mail check, the password check distinguishes upper from lower case. */
  lemma PasswordExampleAccepted()
    ensures ValidatePassword("Abcdef12")
  {
    var s := "Abcdef12";
    PasswordRule(s);
    assert IsDigit(s[6]) && IsLower(s[1]) && IsUpper(s[0]);
  }

  lemma PasswordExampleNoUpper()
    ensures !ValidatePassword("abcdef12")
  {
    var s := "abcdef12";
    PasswordRule(s);
    assert !HasSome(s, IsUpper);
  }

  lemma PasswordExampleTooShort()
    ensures !ValidatePassword("Abc123")
  {
  }
}
