/** The string helpers of core/utils/helpers.py: phone formatting, file-name
    sanitising and the e-mail pattern. Character classes are taken over
    ASCII. */
module Helpers {
  import opened Text

  // ---------------------------------------------------------------------
  // format_phone_number

  /** `format_phone_number(phone)`: the digits of `phone`, laid out as
      `(ddd) ddd-dddd` when there are ten of them and `+d (ddd) ddd-dddd`
      when there are eleven. */
  function FormatPhoneNumber(phone: string): string
  {
    var d := Digits(phone);
    if |d| == 10 then "(" + d[..3] + ") " + d[3..6] + "-" + d[6..]
    else if |d| == 11 then "+" + d[..1] + " (" + d[1..4] + ") " + d[4..7] + "-" + d[7..]
    else d
  }

  /** `s` follows `mask` character by character, where `#` in the mask
      stands for any digit and every other mask character for itself. */
  predicate FitsMask(s: string, mask: string)
  {
    |s| == |mask| && forall i :: 0 <= i < |s| ==> if mask[i] == '#' then IsDigit(s[i]) else s[i] == mask[i]
  }

  /** The layouts: ten digits as `(###) ###-####`, eleven as
      `+# (###) ###-####`, any other count as the bare digits. */
  lemma {:induction false} FormatPhoneNumberShape(phone: string)
    ensures |Digits(phone)| == 10 ==> FitsMask(FormatPhoneNumber(phone), "(###) ###-####")
    ensures |Digits(phone)| == 11 ==> FitsMask(FormatPhoneNumber(phone), "+# (###) ###-####")
    ensures |Digits(phone)| != 10 && |Digits(phone)| != 11 ==> FormatPhoneNumber(phone) == Digits(phone)
  {
    var d := Digits(phone);
    if |d| == 10 {
      TenDigitLayout(d);
    } else if |d| == 11 {
      ElevenDigitLayout(d);
    }
  }

  lemma {:induction false} TenDigitLayout(d: string)
    requires |d| == 10 && AllDigits(d)
    ensures FitsMask("(" + d[..3] + ") " + d[3..6] + "-" + d[6..], "(###) ###-####")
  {
    var f := "(" + d[..3] + ") " + d[3..6] + "-" + d[6..];
    var mask := "(###) ###-####";
    assert |f| == 14;
    forall i | 0 <= i < 14
      ensures if mask[i] == '#' then IsDigit(f[i]) else f[i] == mask[i]
    {
      if 1 <= i < 4 {
        assert f[i] == d[i - 1];
      } else if 6 <= i < 9 {
        assert f[i] == d[i - 3];
      } else if 10 <= i {
        assert f[i] == d[i - 4];
      }
    }
  }

  lemma {:induction false} ElevenDigitLayout(d: string)
    requires |d| == 11 && AllDigits(d)
    ensures FitsMask("+" + d[..1] + " (" + d[1..4] + ") " + d[4..7] + "-" + d[7..], "+# (###) ###-####")
  {
    var f := "+" + d[..1] + " (" + d[1..4] + ") " + d[4..7] + "-" + d[7..];
    var mask := "+# (###) ###-####";
    assert |f| == 17;
    forall i | 0 <= i < 17
      ensures if mask[i] == '#' then IsDigit(f[i]) else f[i] == mask[i]
    {
      if i == 1 {
        assert f[i] == d[0];
      } else if 4 <= i < 7 {
        assert f[i] == d[i - 3];
      } else if 9 <= i < 12 {
        assert f[i] == d[i - 5];
      } else if 13 <= i {
        assert f[i] == d[i - 6];
      }
    }
  }

  /** Formatting neither adds, drops nor reorders a digit. */
  lemma {:induction false} FormatPhoneNumberKeepsDigits(phone: string)
    ensures Digits(FormatPhoneNumber(phone)) == Digits(phone)
  {
    var d := Digits(phone);
    if |d| == 10 {
      TenDigitKeeps(d);
    } else if |d| == 11 {
      ElevenDigitKeeps(d);
    } else {
      DigitsOfDigitString(d);
    }
  }

  lemma {:induction false} TenDigitKeeps(d: string)
    requires |d| == 10 && AllDigits(d)
    ensures Digits("(" + d[..3] + ") " + d[3..6] + "-" + d[6..]) == d
  {
    AppendGroup("", "(", d[..3]);
    AppendGroup("(" + d[..3], ") ", d[3..6]);
    AppendGroup("(" + d[..3] + ") " + d[3..6], "-", d[6..]);
    assert d[..3] + d[3..6] + d[6..] == d;
  }

  lemma {:induction false} ElevenDigitKeeps(d: string)
    requires |d| == 11 && AllDigits(d)
    ensures Digits("+" + d[..1] + " (" + d[1..4] + ") " + d[4..7] + "-" + d[7..]) == d
  {
    AppendGroup("", "+", d[..1]);
    AppendGroup("+" + d[..1], " (", d[1..4]);
    AppendGroup("+" + d[..1] + " (" + d[1..4], ") ", d[4..7]);
    AppendGroup("+" + d[..1] + " (" + d[1..4] + ") " + d[4..7], "-", d[7..]);
    assert d[..1] + d[1..4] + d[4..7] + d[7..] == d;
  }

  /** Formatting a formatted number changes nothing. */
  lemma {:induction false} FormatPhoneNumberIdempotent(phone: string)
    ensures FormatPhoneNumber(FormatPhoneNumber(phone)) == FormatPhoneNumber(phone)
  {
    FormatPhoneNumberKeepsDigits(phone);
  }

  /** Appending a separator without digits and a group of digits appends
      the group to the digits. */
  lemma {:induction false} AppendGroup(x: string, sep: string, g: string)
    requires forall i :: 0 <= i < |sep| ==> !IsDigit(sep[i])
    requires AllDigits(g)
    ensures Digits(x + sep + g) == Digits(x) + g
  {
    var xs := x + sep;
    DigitsOfNoDigit(sep);
    DigitsOfDigitString(g);
    DigitsAppend(x, sep);
    assert Digits(xs) == Digits(x);
    DigitsAppend(xs, g);
  }

  // ---------------------------------------------------------------------
  // sanitize_filename

  /** The characters `[^\w\s.-]` does not match. */
  predicate KeptChar(c: char) { IsWordChar(c) || IsSpace(c) || c == '.' || c == '-' }

  predicate AllOf(s: string, p: char -> bool) { forall i :: 0 <= i < |s| ==> p(s[i]) }

  /** The characters a sanitised name is made of. */
  predicate SafeChar(c: char) { IsWordChar(c) || c == '.' || c == '-' }

  /** `re.sub(r'[^\w\s.-]', '', s)`. */
  function KeepAllowed(s: string): (r: string)
    ensures |r| <= |s|
    ensures AllOf(r, KeptChar)
  {
    if s == [] then [] else (if KeptChar(s[0]) then [s[0]] else []) + KeepAllowed(s[1..])
  }

  /** `re.sub(r'\s+', '_', s)`: each maximal run of whitespace becomes one
      underscore (the run's last character turns into it, the others go). */
  function UnderscoreSpaces(s: string): (r: string)
    ensures NoSpace(r)
    ensures AllOf(s, KeptChar) ==> AllOf(r, SafeChar)
  {
    if s == [] then []
    else if IsSpace(s[0]) && |s| > 1 && IsSpace(s[1]) then UnderscoreSpaces(s[1..])
    else if IsSpace(s[0]) then "_" + UnderscoreSpaces(s[1..])
    else [s[0]] + UnderscoreSpaces(s[1..])
  }

  /** `sanitize_filename(filename)`. */
  function SanitizeFilename(filename: string): (r: string)
    ensures NoSpace(r)
    ensures forall i :: 0 <= i < |r| ==> SafeChar(r[i])
  {
    UnderscoreSpaces(KeepAllowed(filename))
  }

  lemma {:induction false} KeepAllowedOfKept(s: string)
    requires forall i :: 0 <= i < |s| ==> KeptChar(s[i])
    ensures KeepAllowed(s) == s
  {
    if s != [] {
      KeepAllowedOfKept(s[1..]);
    }
  }

  lemma {:induction false} UnderscoreSpacesOfNoSpace(s: string)
    requires NoSpace(s)
    ensures UnderscoreSpaces(s) == s
  {
    if s != [] {
      UnderscoreSpacesOfNoSpace(s[1..]);
    }
  }

  /** The first substitution works character by character: a character
      survives exactly when the class keeps it, and the survivors of two
      pieces are those of each, in order. */
  lemma {:induction false} KeepAllowedOne(c: char)
    ensures KeepAllowed([c]) == if KeptChar(c) then [c] else []
  {
    assert [c][1..] == [];
  }

  lemma {:induction false} KeepAllowedAppend(a: string, b: string)
    ensures KeepAllowed(a + b) == KeepAllowed(a) + KeepAllowed(b)
  {
    if a == [] {
      assert a + b == b;
    } else {
      var head := if KeptChar(a[0]) then [a[0]] else [];
      assert (a + b)[0] == a[0] && (a + b)[1..] == a[1..] + b;
      KeepAllowedAppend(a[1..], b);
      calc {
        KeepAllowed(a + b);
        head + KeepAllowed(a[1..] + b);
        head + (KeepAllowed(a[1..]) + KeepAllowed(b));
        (head + KeepAllowed(a[1..])) + KeepAllowed(b);
        KeepAllowed(a) + KeepAllowed(b);
      }
    }
  }

  /** A prefix without whitespace goes through the second substitution
      unchanged. */
  lemma {:induction false} UnderscoreSpacesKeepsWord(w: string, t: string)
    requires NoSpace(w)
    ensures UnderscoreSpaces(w + t) == w + UnderscoreSpaces(t)
  {
    if w == [] {
      assert w + t == t;
    } else {
      var s := w + t;
      assert s[0] == w[0] && !IsSpace(s[0]) && s[1..] == w[1..] + t;
      assert UnderscoreSpaces(s) == [w[0]] + UnderscoreSpaces(w[1..] + t);
      UnderscoreSpacesKeepsWord(w[1..], t);
      calc {
        [w[0]] + UnderscoreSpaces(w[1..] + t);
        [w[0]] + (w[1..] + UnderscoreSpaces(t));
        ([w[0]] + w[1..]) + UnderscoreSpaces(t);
        { assert [w[0]] + w[1..] == w; }
        w + UnderscoreSpaces(t);
      }
    }
  }

  /** A maximal run of whitespace becomes one underscore. */
  lemma {:induction false} UnderscoreSpacesRun(sp: string, t: string)
    requires sp != [] && forall i :: 0 <= i < |sp| ==> IsSpace(sp[i])
    requires t == [] || !IsSpace(t[0])
    ensures UnderscoreSpaces(sp + t) == "_" + UnderscoreSpaces(t)
  {
    var s := sp + t;
    assert s[0] == sp[0] && s[1..] == sp[1..] + t;
    if |sp| > 1 {
      assert s[1] == sp[1];
      UnderscoreSpacesRun(sp[1..], t);
    } else {
      assert sp[1..] + t == t;
    }
  }

  /** `re.sub(r'\s+', '_', s)` on a word, a whitespace run and the rest:
      the word stays, the run becomes `_`, and the rest is rewritten the
      same way. */
  lemma {:induction false} UnderscoreSpacesStep(w: string, sp: string, t: string)
    requires NoSpace(w)
    requires sp != [] && forall i :: 0 <= i < |sp| ==> IsSpace(sp[i])
    requires t == [] || !IsSpace(t[0])
    ensures UnderscoreSpaces(w + sp + t) == w + "_" + UnderscoreSpaces(t)
  {
    assert w + sp + t == w + (sp + t);
    UnderscoreSpacesKeepsWord(w, sp + t);
    UnderscoreSpacesRun(sp, t);
  }

  /** Sanitising drops an unsafe character wherever it stands, and keeps
      everything around it. */
  lemma {:induction false} SanitizeFilenameDropsUnsafe(a: string, c: char, b: string)
    requires !KeptChar(c)
    ensures SanitizeFilename(a + [c] + b) == SanitizeFilename(a + b)
  {
    KeepAllowedAppend(a + [c], b);
    KeepAllowedAppend(a, [c]);
    KeepAllowedOne(c);
    KeepAllowedAppend(a, b);
    assert KeepAllowed(a) + [] == KeepAllowed(a);
  }

  /** Two safe words around a run of whitespace become the words joined by
      one underscore. */
  lemma {:induction false} SanitizeFilenameJoinsWords(w1: string, sp: string, w2: string)
    requires AllOf(w1, SafeChar) && AllOf(w2, SafeChar)
    requires sp != [] && forall i :: 0 <= i < |sp| ==> IsSpace(sp[i])
    ensures SanitizeFilename(w1 + sp + w2) == w1 + "_" + w2
  {
    var s := w1 + sp + w2;
    forall i | 0 <= i < |s| ensures KeptChar(s[i]) {
      if i < |w1| {
        assert s[i] == w1[i];
      } else if i < |w1| + |sp| {
        assert s[i] == sp[i - |w1|];
      } else {
        assert s[i] == w2[i - |w1| - |sp|];
      }
    }
    KeepAllowedOfKept(s);
    assert NoSpace(w1) && NoSpace(w2);
    UnderscoreSpacesStep(w1, sp, w2);
    UnderscoreSpacesOfNoSpace(w2);
  }

  /** A name is left as it is exactly when it is made of word characters,
      dots and hyphens only. */
  lemma {:induction false} SanitizeFilenameFixedPoints(filename: string)
    ensures SanitizeFilename(filename) == filename <==> forall i :: 0 <= i < |filename| ==> SafeChar(filename[i])
  {
    if forall i :: 0 <= i < |filename| ==> SafeChar(filename[i]) {
      KeepAllowedOfKept(filename);
      UnderscoreSpacesOfNoSpace(filename);
    }
  }

  /** Sanitising twice is sanitising once. */
  lemma {:induction false} SanitizeFilenameIdempotent(filename: string)
    ensures SanitizeFilename(SanitizeFilename(filename)) == SanitizeFilename(filename)
  {
    SanitizeFilenameFixedPoints(SanitizeFilename(filename));
  }

  // ---------------------------------------------------------------------
  // validate_email: `^[a-zA-Z0-9._%+-]+@[a-zA-Z0-9.-]+\.[a-zA-Z]{2,}$`

  predicate LocalChar(c: char) { IsAsciiLetter(c) || IsDigit(c) || c in "._%+-" }

  predicate DomainChar(c: char) { IsAsciiLetter(c) || IsDigit(c) || c == '.' || c == '-' }

  /** `w` is a word of the pattern's language, read with its `@` at `i` and
      the dot before the final letters at `j`. */
  predicate EmailSplitAt(w: string, i: int, j: int)
  {
    && 0 < i < j < |w| - 2
    && w[i] == '@' && w[j] == '.'
    && AllOf(w[..i], LocalChar)
    && AllOf(w[i + 1..j], DomainChar) && i + 1 < j
    && AllOf(w[j + 1..], IsAsciiLetter)
  }

  /** The language of the pattern without its anchors. */
  ghost predicate EmailWord(w: string)
  {
    exists i, j :: EmailSplitAt(w, i, j)
  }

  function IndexOf(s: string, c: char): (r: Option<nat>)
    ensures r.None? ==> forall k :: 0 <= k < |s| ==> s[k] != c
    ensures r.Some? ==> r.value < |s| && s[r.value] == c && forall k :: 0 <= k < r.value ==> s[k] != c
  {
    if s == [] then None
    else if s[0] == c then Some(0)
    else match IndexOf(s[1..], c) { case None => None case Some(k) => Some(k + 1) }
  }

  function LastIndexOf(s: string, c: char): (r: Option<nat>)
    ensures r.None? ==> forall k :: 0 <= k < |s| ==> s[k] != c
    ensures r.Some? ==> r.value < |s| && s[r.value] == c && forall k :: r.value < k < |s| ==> s[k] != c
  {
    if s == [] then None
    else if s[|s| - 1] == c then Some(|s| - 1)
    else LastIndexOf(s[..|s| - 1], c)
  }

  /** The word test as a program would run it: the `@` must be the first
      one and the dot the last one. */
  predicate IsEmailWord(w: string)
  {
    var at, dot := IndexOf(w, '@'), LastIndexOf(w, '.');
    at.Some? && dot.Some? && EmailSplitAt(w, at.value, dot.value)
  }

  /** `re.match(pattern, email)` succeeds: `$` also matches before one final
      newline. */
  predicate ValidateEmail(email: string)
  {
    IsEmailWord(email) || (|email| > 0 && email[|email| - 1] == '\n' && IsEmailWord(email[..|email| - 1]))
  }

  /** Any reading of a word puts the `@` at its first `@` and the dot at its
      last dot, since neither the local part nor the final letters hold an
      `@` nor the final letters a dot. */
  lemma {:induction false} EmailSplitIsUnique(w: string, i: int, j: int)
    requires EmailSplitAt(w, i, j)
    ensures IndexOf(w, '@') == Some(i) && LastIndexOf(w, '.') == Some(j)
  {
    var at, dot := IndexOf(w, '@'), LastIndexOf(w, '.');
    forall k | 0 <= k < i ensures w[k] != '@' {
      assert w[..i][k] == w[k];
    }
    forall k | j < k < |w| ensures w[k] != '.' {
      assert w[j + 1..][k - j - 1] == w[k];
    }
  }

  /** The test finds a reading exactly when there is one. */
  lemma {:induction false} IsEmailWordCorrect(w: string)
    ensures IsEmailWord(w) <==> EmailWord(w)
  {
    if EmailWord(w) {
      var i, j :| EmailSplitAt(w, i, j);
      EmailSplitIsUnique(w, i, j);
    }
  }

  /** A word of the language has exactly one `@`, a non-empty part before
      it, and ends in a dot followed by two or more letters. */
  lemma {:induction false} EmailWordShape(w: string)
    requires IsEmailWord(w)
    ensures exists i :: 0 < i < |w| && w[i] == '@' && forall k :: 0 <= k < |w| && w[k] == '@' ==> k == i
    ensures exists j :: 0 < j < |w| - 2 && w[j] == '.' && AllOf(w[j + 1..], IsAsciiLetter)
  {
    var i, j := IndexOf(w, '@').value, LastIndexOf(w, '.').value;
    assert EmailSplitAt(w, i, j);
    forall k | i < k < |w| ensures w[k] != '@' {
      if k < j {
        assert w[i + 1..j][k - i - 1] == w[k];
      } else if j < k {
        assert w[j + 1..][k - j - 1] == w[k];
      }
    }
  }

  /** `validate_email` accepts exactly the words of the language, each
      with or without one final newline. */
  lemma {:induction false} ValidateEmailCorrect(email: string)
    ensures ValidateEmail(email) <==>
      EmailWord(email) || (|email| > 0 && email[|email| - 1] == '\n' && EmailWord(email[..|email| - 1]))
  {
    IsEmailWordCorrect(email);
    if |email| > 0 {
      IsEmailWordCorrect(email[..|email| - 1]);
    }
  }

  /** Any local part, domain and final letters of the allowed characters
      make an accepted address, however many dots the local part and the
      domain hold. */
  lemma {:induction false} EmailAccepted(local: string, domain: string, suffix: string)
    requires local != [] && AllOf(local, LocalChar)
    requires domain != [] && AllOf(domain, DomainChar)
    requires |suffix| >= 2 && AllOf(suffix, IsAsciiLetter)
    ensures ValidateEmail(local + "@" + domain + "." + suffix)
  {
    var w := local + "@" + domain + "." + suffix;
    var i, j := |local|, |local| + 1 + |domain|;
    assert w[..i] == local;
    assert w[i + 1..j] == domain;
    assert w[j + 1..] == suffix;
    assert EmailSplitAt(w, i, j);
    EmailSplitIsUnique(w, i, j);
  }

  /** `$` lets one final newline through: an accepted word is still
      accepted with a newline after it. */
  lemma {:induction false} EmailTrailingNewlineAccepted(w: string)
    requires IsEmailWord(w)
    ensures ValidateEmail(w + "\n")
  {
    assert (w + "\n")[..|w|] == w;
  }

  lemma EmailShortSuffixExample()
    ensures !ValidateEmail("ana@empresa.c")
  {
  }

  lemma EmailEmptyLocalPartExample()
    ensures !ValidateEmail("@empresa.com")
  {
  }

  lemma EmailTwoAtSignsExample()
    ensures !ValidateEmail("a@@b.co")
  {
    var w := "a@@b.co";
    assert IndexOf(w, '@') == Some(1);
    assert LastIndexOf(w, '.') == Some(4);
    assert w[2..4][0] == '@';
  }
}
