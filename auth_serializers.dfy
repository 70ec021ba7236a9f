/** The two pure rules of apps/authentication/serializers.py: the check
    that the LDAP record carries its required fields, and the split of the
    LDAP full name into first and last names. */
module AuthSerializers {
  import opened Text

  /** What `validate_ldap` gives back: its argument, or a validation error. */
  datatype Checked<T> = Valid(value: T) | Invalid(message: string)

  const RequiredLdapFields: seq<string> := ["user", "full_name", "position", "mail", "document"]

  /** `a` lists some of the entries of `b`, in the order they have there. */
  predicate IsSubsequence(a: seq<string>, b: seq<string>)
    decreases |b|
  {
    if a == [] then true
    else if b == [] then false
    else if a[0] == b[0] then IsSubsequence(a[1..], b[1..])
    else IsSubsequence(a, b[1..])
  }

  /** The entries of `fields` that are not keys of `d`, in order. */
  function MissingFields(fields: seq<string>, d: map<string, string>): (r: seq<string>)
    ensures forall k :: 0 <= k < |r| ==> r[k] in fields && r[k] !in d
    ensures forall f :: f in fields && f !in d ==> f in r
  {
    if fields == [] then []
    else (if fields[0] in d then [] else [fields[0]]) + MissingFields(fields[1..], d)
  }

  lemma {:induction false} MissingFieldsInOrder(fields: seq<string>, d: map<string, string>)
    ensures IsSubsequence(MissingFields(fields, d), fields)
  {
    if fields != [] {
      MissingFieldsInOrder(fields[1..], d);
      if fields[0] !in d {
        assert MissingFields(fields, d) == [fields[0]] + MissingFields(fields[1..], d);
      } else {
        assert MissingFields(fields, d) == MissingFields(fields[1..], d);
        SubsequenceOfTail(MissingFields(fields[1..], d), fields);
      }
    }
  }

  lemma {:induction false} SubsequenceOfTail(a: seq<string>, b: seq<string>)
    requires b != [] && IsSubsequence(a, b[1..])
    ensures IsSubsequence(a, b)
    decreases |b|, 0
  {
    if a != [] && a[0] == b[0] {
      SubsequenceDropFirst(a, b[1..]);
    }
  }

  lemma {:induction false} SubsequenceDropFirst(a: seq<string>, b: seq<string>)
    requires a != [] && IsSubsequence(a, b)
    ensures IsSubsequence(a[1..], b)
    decreases |b|, 1
  {
    if b == [] {
      assert false;
    } else if a[0] == b[0] {
      SubsequenceOfTail(a[1..], b);
    } else {
      SubsequenceDropFirst(a, b[1..]);
      SubsequenceOfTail(a[1..], b);
    }
  }

  /** `LDAPAuthSerializer.validate_ldap(value)`. */
  function ValidateLdap(value: map<string, string>): (r: Checked<map<string, string>>)
    ensures r.Valid? <==> forall f :: f in RequiredLdapFields ==> f in value
    ensures r.Valid? ==> r.value == value
    ensures r.Invalid? ==> r.message == "Faltan campos requeridos en ldap: " + Join(MissingFields(RequiredLdapFields, value), ", ")
  {
    var missing := MissingFields(RequiredLdapFields, value);
    if missing != [] then Invalid("Faltan campos requeridos en ldap: " + Join(missing, ", ")) else Valid(value)
  }

  /** Only the presence of the five required keys matters: keys beyond
      them, and the values, never change the outcome. */
  lemma {:induction false} LdapOnlyRequiredKeysMatter(a: map<string, string>, b: map<string, string>)
    requires forall f :: f in RequiredLdapFields ==> (f in a <==> f in b)
    ensures ValidateLdap(a).Valid? == ValidateLdap(b).Valid?
    ensures ValidateLdap(a).Invalid? ==> ValidateLdap(a).message == ValidateLdap(b).message
  {
    SameMissingFields(RequiredLdapFields, a, b);
  }

  lemma {:induction false} SameMissingFields(fields: seq<string>, a: map<string, string>, b: map<string, string>)
    requires forall f :: f in fields ==> (f in a <==> f in b)
    ensures MissingFields(fields, a) == MissingFields(fields, b)
  {
    if fields != [] {
      SameMissingFields(fields[1..], a, b);
    }
  }

  /** The missing keys are reported in the order of the required list. */
  lemma {:induction false} LdapMissingInOrder(value: map<string, string>)
    ensures IsSubsequence(MissingFields(RequiredLdapFields, value), RequiredLdapFields)
  {
    MissingFieldsInOrder(RequiredLdapFields, value);
  }

  /** Without `user` and `mail` the record is refused, and the message
      names them in that order. */
  lemma {:induction false} LdapMessageExample(v: map<string, string>)
    requires "user" !in v && "mail" !in v
    requires "full_name" in v && "position" in v && "document" in v
    ensures ValidateLdap(v).Invalid?
    ensures MissingFields(RequiredLdapFields, v) == ["user", "mail"]
  {
    var f := RequiredLdapFields;
    assert MissingFields(f[4..], v) == [] by {
      MissingFieldsCons(f[4..], v);
      assert f[4..][1..] == [];
    }
    assert MissingFields(f[3..], v) == ["mail"] by {
      MissingFieldsCons(f[3..], v);
      assert f[3..][1..] == f[4..];
    }
    assert MissingFields(f[1..], v) == ["mail"] by {
      MissingFieldsCons(f[1..], v);
      MissingFieldsCons(f[2..], v);
      assert f[1..][1..] == f[2..] && f[2..][1..] == f[3..];
    }
    MissingFieldsCons(f, v);
  }

  lemma {:induction false} MissingFieldsCons(fields: seq<string>, d: map<string, string>)
    requires fields != []
    ensures MissingFields(fields, d) == (if fields[0] in d then [] else [fields[0]]) + MissingFields(fields[1..], d)
  {
  }

  // ---------------------------------------------------------------------
  // The name split in create_or_update_user

  /** `s.split()`: the maximal runs of non-whitespace characters. */
  function SplitWhitespace(s: string): (r: seq<string>)
    ensures forall k :: 0 <= k < |r| ==> |r[k]| > 0 && NoSpace(r[k])
    decreases |s|
  {
    var t := DropSpaces(s);
    if t == [] then []
    else
      var w := TakeWord(t);
      assert |w| > 0 by {
        assert !IsSpace(t[0]);
      }
      [w] + SplitWhitespace(t[|w|..])
  }

  /** `s.strip()`. */
  function Strip(s: string): (r: string)
    ensures r == [] || (!IsSpace(r[0]) && !IsSpace(r[|r| - 1]))
  {
    DropTrailingSpaces(DropSpaces(s))
  }

  function DropTrailingSpaces(s: string): (r: string)
    ensures |r| <= |s| && r == s[..|r|]
    ensures r == [] || !IsSpace(r[|r| - 1])
    ensures forall i :: |r| <= i < |s| ==> IsSpace(s[i])
  {
    if s != [] && IsSpace(s[|s| - 1]) then DropTrailingSpaces(s[..|s| - 1]) else s
  }

  /** The first and last names written for the user: the first token of
      the stripped full name, and the other tokens joined by single spaces. */
  function NameParts(fullName: string): (string, string)
  {
    var parts := SplitWhitespace(Strip(fullName));
    var first := if parts != [] then parts[0] else "";
    var last := if |parts| > 1 then Join(parts[1..], " ") else "";
    (first, last)
  }

  /** The full name with its whitespace normalised: tokens joined by single
      spaces. */
  function Normalised(fullName: string): string
  {
    Join(SplitWhitespace(fullName), " ")
  }

  /** The characters of `s` other than whitespace, in order. */
  function NonSpace(s: string): (r: string)
    ensures NoSpace(r)
  {
    if s == [] then [] else (if IsSpace(s[0]) then [] else [s[0]]) + NonSpace(s[1..])
  }

  lemma {:induction false} NonSpaceAppend(a: string, b: string)
    ensures NonSpace(a + b) == NonSpace(a) + NonSpace(b)
  {
    if a == [] {
      assert a + b == b;
    } else {
      assert (a + b)[1..] == a[1..] + b;
      NonSpaceAppend(a[1..], b);
    }
  }

  lemma {:induction false} NonSpaceOfNoSpace(s: string)
    requires NoSpace(s)
    ensures NonSpace(s) == s
  {
    if s != [] {
      NonSpaceOfNoSpace(s[1..]);
    }
  }

  lemma {:induction false} NonSpaceOfSpaces(s: string)
    requires forall i :: 0 <= i < |s| ==> IsSpace(s[i])
    ensures NonSpace(s) == []
  {
    if s != [] {
      NonSpaceOfSpaces(s[1..]);
    }
  }

  /** Leading whitespace holds no character that `NonSpace` keeps. */
  lemma {:induction false} NonSpaceDropSpaces(s: string)
    ensures NonSpace(DropSpaces(s)) == NonSpace(s)
  {
    var t := DropSpaces(s);
    var pre := s[..|s| - |t|];
    assert s == pre + t;
    forall i | 0 <= i < |pre| ensures IsSpace(pre[i]) {
      assert pre[i] == s[i];
    }
    NonSpaceOfSpaces(pre);
    NonSpaceAppend(pre, t);
  }

  /** A string that starts with a word keeps that word, then the rest. */
  lemma {:induction false} NonSpaceOfWordThenRest(t: string)
    ensures NonSpace(t) == TakeWord(t) + NonSpace(t[|TakeWord(t)|..])
  {
    var w := TakeWord(t);
    var rest := t[|w|..];
    assert t == w + rest;
    NonSpaceAppend(w, rest);
    NonSpaceOfNoSpace(w);
  }

  lemma {:induction false} ConcatCons(w: string, rest: seq<string>)
    ensures Concat([w] + rest) == w + Concat(rest)
  {
    assert ([w] + rest)[1..] == rest;
  }

  /** Splitting keeps every character that is not whitespace, in order. */
  lemma {:induction false} SplitKeepsNonSpace(s: string)
    ensures Concat(SplitWhitespace(s)) == NonSpace(s)
    decreases |s|
  {
    var t := DropSpaces(s);
    NonSpaceDropSpaces(s);
    if t != [] {
      var w := TakeWord(t);
      var rest := t[|w|..];
      assert |w| > 0 by {
        assert !IsSpace(t[0]);
      }
      NonSpaceOfWordThenRest(t);
      SplitKeepsNonSpace(rest);
      ConcatCons(w, SplitWhitespace(rest));
    }
  }

  function Concat(parts: seq<string>): string
  {
    if parts == [] then "" else parts[0] + Concat(parts[1..])
  }

  lemma {:induction false} NonSpaceOfJoin(parts: seq<string>)
    requires forall k :: 0 <= k < |parts| ==> NoSpace(parts[k])
    ensures NonSpace(Join(parts, " ")) == Concat(parts)
  {
    if |parts| == 1 {
      NonSpaceOfNoSpace(parts[0]);
    } else if |parts| > 1 {
      NonSpaceOfJoin(parts[1..]);
      NonSpaceAppend(parts[0] + " ", Join(parts[1..], " "));
      NonSpaceAppend(parts[0], " ");
      NonSpaceOfNoSpace(parts[0]);
    }
  }

  /** Normalising loses no character other than whitespace and reorders
      none. */
  lemma {:induction false} NormalisedKeepsNonSpace(fullName: string)
    ensures NonSpace(Normalised(fullName)) == NonSpace(fullName)
  {
    NonSpaceOfJoin(SplitWhitespace(fullName));
    SplitKeepsNonSpace(fullName);
  }

  lemma {:induction false} DropSpacesAppend(a: string, b: string)
    requires DropSpaces(a) != []
    ensures DropSpaces(a + b) == DropSpaces(a) + b
  {
    if a != [] && IsSpace(a[0]) {
      assert (a + b)[1..] == a[1..] + b;
      DropSpacesAppend(a[1..], b);
    }
  }

  lemma {:induction false} DropSpacesOfSpaces(s: string)
    requires forall i :: 0 <= i < |s| ==> IsSpace(s[i])
    ensures DropSpaces(s) == []
  {
    if s != [] {
      DropSpacesOfSpaces(s[1..]);
    }
  }

  lemma {:induction false} TakeWordAppend(t: string, b: string)
    requires |TakeWord(t)| < |t| || b == [] || IsSpace(b[0])
    ensures TakeWord(t + b) == TakeWord(t)
  {
    if t == [] {
      assert t + b == b;
    } else if !IsSpace(t[0]) {
      assert (t + b)[1..] == t[1..] + b;
      TakeWordAppend(t[1..], b);
    }
  }

  /** Trailing whitespace does not change the split. */
  lemma {:induction false} SplitIgnoresTrailingSpaces(a: string, sp: string)
    requires forall i :: 0 <= i < |sp| ==> IsSpace(sp[i])
    ensures SplitWhitespace(a + sp) == SplitWhitespace(a)
    decreases |a|
  {
    var t := DropSpaces(a);
    if t == [] {
      forall i | 0 <= i < |a + sp| ensures IsSpace((a + sp)[i]) {
        if i >= |a| {
          assert (a + sp)[i] == sp[i - |a|];
        }
      }
      DropSpacesOfSpaces(a + sp);
    } else {
      DropSpacesAppend(a, sp);
      var w := TakeWord(t);
      assert |w| > 0 by {
        assert !IsSpace(t[0]);
      }
      TakeWordAppend(t, sp);
      var rest := t[|w|..];
      SliceOfAppend(t, sp, |w|);
      SplitIgnoresTrailingSpaces(rest, sp);
      calc {
        SplitWhitespace(a + sp);
        [w] + SplitWhitespace((t + sp)[|w|..]);
        [w] + SplitWhitespace(rest);
        SplitWhitespace(a);
      }
    }
  }

  lemma {:induction false} SliceOfAppend(x: string, y: string, k: nat)
    requires k <= |x|
    ensures (x + y)[k..] == x[k..] + y
  {
  }

  /** Leading whitespace does not change the split. */
  lemma {:induction false} SplitAfterDrop(s: string)
    ensures SplitWhitespace(DropSpaces(s)) == SplitWhitespace(s)
  {
    var t := DropSpaces(s);
    assert DropSpaces(t) == t;
  }

  /** `strip()` before `split()` changes nothing. */
  lemma {:induction false} StripKeepsSplit(s: string)
    ensures SplitWhitespace(Strip(s)) == SplitWhitespace(s)
  {
    var t := DropSpaces(s);
    var u := DropTrailingSpaces(t);
    var sp := t[|u|..];
    assert t == u + sp;
    forall i | 0 <= i < |sp| ensures IsSpace(sp[i]) {
      assert sp[i] == t[|u| + i];
    }
    SplitIgnoresTrailingSpaces(u, sp);
    SplitAfterDrop(s);
  }

  /** The first name holds no whitespace. */
  lemma {:induction false} FirstNameHasNoSpace(fullName: string)
    ensures NoSpace(NameParts(fullName).0)
  {
  }

  /** A blank or empty full name gives empty first and last names. */
  lemma {:induction false} BlankNameGivesEmptyParts(fullName: string)
    requires forall i :: 0 <= i < |fullName| ==> IsSpace(fullName[i])
    ensures NameParts(fullName) == ("", "")
  {
    DropSpacesOfSpaces(fullName);
  }

  /** A single token is the first name and the last name is empty. */
  lemma {:induction false} SingleTokenName(fullName: string)
    requires Strip(fullName) != [] && NoSpace(Strip(fullName))
    ensures NameParts(fullName) == (Strip(fullName), "")
  {
    var u := Strip(fullName);
    assert DropSpaces(u) == u;
    assert TakeWord(u) == u;
    assert u[|u|..] == [];
    assert SplitWhitespace(u) == [u];
  }

  /** With two or more tokens the first name is the first token, the last
      name the others joined by single spaces, and the two with a space
      between them give the normalised full name. */
  lemma {:induction false} SeveralTokensName(fullName: string)
    requires |SplitWhitespace(fullName)| >= 2
    ensures NameParts(fullName).0 == SplitWhitespace(fullName)[0]
    ensures NameParts(fullName).1 == Join(SplitWhitespace(fullName)[1..], " ")
    ensures NameParts(fullName).0 + " " + NameParts(fullName).1 == Normalised(fullName)
  {
    StripKeepsSplit(fullName);
  }
  lemma {:induction false} DropSpacesOfPrefix(sp: string, t: string)
    requires forall i :: 0 <= i < |sp| ==> IsSpace(sp[i])
    ensures DropSpaces(sp + t) == DropSpaces(t)
    decreases |sp|
  {
    if sp == [] {
      assert sp + t == t;
    } else {
      assert (sp + t)[1..] == sp[1..] + t;
      DropSpacesOfPrefix(sp[1..], t);
    }
  }

  lemma {:induction false} TakeWordOfWord(w: string, x: string)
    requires NoSpace(w) && (x == [] || IsSpace(x[0]))
    ensures TakeWord(w + x) == w
    decreases |w|
  {
    if w == [] {
      assert w + x == x;
    } else {
      assert (w + x)[1..] == w[1..] + x;
      TakeWordOfWord(w[1..], x);
    }
  }

  /** Whitespace in front of the rest adds no token: `(sp + t).split()`
      is `t.split()`. */
  lemma {:induction false} SplitSkipsLeadingSpaces(sp: string, t: string)
    requires forall i :: 0 <= i < |sp| ==> IsSpace(sp[i])
    ensures SplitWhitespace(sp + t) == SplitWhitespace(t)
  {
    DropSpacesOfPrefix(sp, t);
    SplitAfterDrop(sp + t);
    SplitAfterDrop(t);
  }

  /** A word on its own is one token. */
  lemma {:induction false} SplitOfWord(w: string)
    requires w != [] && NoSpace(w)
    ensures SplitWhitespace(w) == [w]
  {
    assert DropSpaces(w) == w;
    TakeWordOfWord(w, []);
    assert w + [] == w;
    assert w[|w|..] == [];
  }

  /** Token boundaries: a word followed by a whitespace run is the first
      token, and splitting goes on after the run. */
  lemma {:induction false} SplitWordThenSpaces(w: string, sp: string, t: string)
    requires w != [] && NoSpace(w)
    requires sp != [] && forall i :: 0 <= i < |sp| ==> IsSpace(sp[i])
    ensures SplitWhitespace(w + sp + t) == [w] + SplitWhitespace(t)
  {
    var s := w + sp + t;
    assert s == w + (sp + t);
    assert DropSpaces(s) == s by {
      assert s[0] == w[0];
    }
    TakeWordOfWord(w, sp + t);
    assert s[|w|..] == sp + t;
    SplitSkipsLeadingSpaces(sp, t);
  }

  /** Two words separated by any whitespace run give exactly those two
      words as first and last name. */
  lemma {:induction false} NamePartsTwoWords(w1: string, sp: string, w2: string)
    requires w1 != [] && NoSpace(w1) && w2 != [] && NoSpace(w2)
    requires sp != [] && forall i :: 0 <= i < |sp| ==> IsSpace(sp[i])
    ensures NameParts(w1 + sp + w2) == (w1, w2)
  {
    var s := w1 + sp + w2;
    var parts := SplitWhitespace(s);
    var rest := SplitWhitespace(w2);
    SplitWordThenSpaces(w1, sp, w2);
    assert parts == [w1] + rest;
    SplitOfWord(w2);
    assert parts[0] == w1 && parts[1..] == rest;
    SeveralTokensName(s);
  }
}
