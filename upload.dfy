/** The upload middleware: the name a stored file gets, and the document types it accepts. */
module Upload {
  import opened Wrappers
  import opened Text
  import opened Lists

  /* ---------------- the stored file name ---------------- */

  /** `originalname.replace(/\s+/g, "_")`: each run of white space becomes one underscore. */
  function CleanName(s: string): (r: string)
    decreases |s|
  {
    if s == [] then []
    else if IsWhitespace(s[0]) then "_" + CleanName(TrimStart(s[1..]))
    else [s[0]] + CleanName(s[1..])
  }

  /** The cleaned name holds no white space. */
  lemma {:induction false} CleanNoWhitespace(s: string)
    ensures NoWhitespace(CleanName(s))
    decreases |s|
  {
    if s != [] && IsWhitespace(s[0]) {
      CleanNoWhitespace(TrimStart(s[1..]));
      NoWhitespaceCons('_', CleanName(TrimStart(s[1..])));
    } else if s != [] {
      CleanNoWhitespace(s[1..]);
      NoWhitespaceCons(s[0], CleanName(s[1..]));
    }
  }

  lemma NoWhitespaceCons(c: char, t: string)
    requires !IsWhitespace(c) && NoWhitespace(t)
    ensures NoWhitespace([c] + t)
  {
    forall k | 0 < k < |[c] + t| ensures !IsWhitespace(([c] + t)[k]) {
      assert ([c] + t)[k] == t[k - 1];
    }
  }

  /** Text without white space is kept as it is; it is copied in front of whatever follows. */
  lemma {:induction false} CleanPlainPrefix(a: string, b: string)
    requires NoWhitespace(a)
    ensures CleanName(a + b) == a + CleanName(b)
  {
    if a != [] {
      assert (a + b)[0] == a[0] && (a + b)[1..] == a[1..] + b;
      CleanPlainPrefix(a[1..], b);
    } else {
      assert a + b == b;
    }
  }

  lemma CleanIdentity(s: string)
    requires NoWhitespace(s)
    ensures CleanName(s) == s
  {
    CleanPlainPrefix(s, "");
    assert s + "" == s;
  }

  /** Cleaning a clean name changes nothing. */
  lemma CleanIdempotent(s: string)
    ensures CleanName(CleanName(s)) == CleanName(s)
  {
    CleanNoWhitespace(s);
    CleanIdentity(CleanName(s));
  }

  /** A whole run of white space, however long, becomes a single underscore. */
  lemma CleanRun(w: string, b: string)
    requires |w| > 0 && AllWhitespace(w)
    requires b == [] || !IsWhitespace(b[0])
    ensures CleanName(w + b) == "_" + CleanName(b)
  {
    assert (w + b)[1..] == w[1..] + b;
    TrimStartWhitespacePrefix(w[1..], b);
  }

  lemma {:induction false} TrimStartWhitespacePrefix(w: string, b: string)
    requires AllWhitespace(w)
    requires b == [] || !IsWhitespace(b[0])
    ensures TrimStart(w + b) == b
  {
    if w != [] {
      assert (w + b)[1..] == w[1..] + b;
      TrimStartWhitespacePrefix(w[1..], b);
    } else {
      assert w + b == b;
    }
  }

  function NotUnderscore(c: char): bool
  {
    c != '_'
  }

  function PlainNotUnderscore(c: char): bool
  {
    !IsWhitespace(c) && c != '_'
  }

  /** Leaving the underscores aside, the cleaned name is the original's non-white-space
      characters in their original order. */
  lemma {:induction false} CleanKeepsOrder(s: string)
    ensures Keep(CleanName(s), NotUnderscore) == Keep(s, PlainNotUnderscore)
    decreases |s|
  {
    if s != [] {
      if IsWhitespace(s[0]) {
        var t := TrimStart(s[1..]);
        CleanKeepsOrder(t);
        KeepAppend("_", CleanName(t), NotUnderscore);
        var w := s[1..][..|s| - 1 - |t|];
        assert s[1..] == w + t;
        KeepAppend(w, t, PlainNotUnderscore);
        KeepNone(w);
      } else {
        CleanKeepsOrder(s[1..]);
        assert CleanName(s) == [s[0]] + CleanName(s[1..]);
        KeepAppend([s[0]], CleanName(s[1..]), NotUnderscore);
      }
    }
  }

  lemma {:induction false} KeepNone(w: string)
    requires AllWhitespace(w)
    ensures Keep(w, PlainNotUnderscore) == []
  {
    if w != [] {
      KeepNone(w[1..]);
    }
  }

  /** `${Date.now()}-${cleanName}`. */
  function StoredName(now: nat, originalName: string): string
  {
    NatToString(now) + "-" + CleanName(originalName)
  }

  /** The first '-' of a stored name is the one after the time's digits. */
  lemma StoredNameDash(now: nat, originalName: string)
    ensures '-' in StoredName(now, originalName)
    ensures IndexOf(StoredName(now, originalName), '-') == |NatToString(now)|
  {
    var digits := NatToString(now);
    var stored := StoredName(now, originalName);
    assert stored[|digits|] == '-';
    forall k | 0 <= k < |digits| ensures stored[k] != '-' {
      assert stored[k] == digits[k];
    }
    var i := IndexOf(stored, '-');
    forall k | 0 <= k < i ensures stored[k] != '-' {
      assert stored[..i][k] == stored[k];
    }
  }

  /** No white space is left in a stored name. */
  lemma StoredNameNoWhitespace(now: nat, originalName: string)
    ensures NoWhitespace(StoredName(now, originalName))
  {
    var digits := NatToString(now);
    var clean := CleanName(originalName);
    var stored := StoredName(now, originalName);
    CleanNoWhitespace(originalName);
    forall k | 0 <= k < |stored| ensures !IsWhitespace(stored[k]) {
      if k < |digits| {
        assert stored[k] == digits[k];
      } else if k > |digits| {
        assert stored[k] == clean[k - |digits| - 1];
      }
    }
  }

  /** The stored name splits at its first '-' into the upload time's digits and the cleaned name,
      so both can be read back from it. */
  lemma StoredNameParts(now: nat, originalName: string)
    ensures var stored := StoredName(now, originalName);
            '-' in stored &&
            IsDigits(stored[..IndexOf(stored, '-')]) &&
            DigitsValue(stored[..IndexOf(stored, '-')]) == now &&
            stored[IndexOf(stored, '-') + 1..] == CleanName(originalName)
  {
    var digits := NatToString(now);
    var stored := StoredName(now, originalName);
    StoredNameDash(now, originalName);
    assert stored[..|digits|] == digits;
    assert stored[|digits| + 1..] == CleanName(originalName);
    NatToStringRoundTrip(now);
  }

  /* ---------------- accepted types ---------------- */

  const AllowedTypes := ["application/pdf", "application/msword",
                         "application/vnd.openxmlformats-officedocument.wordprocessingml.document"]

  const WrongType := "Only PDF, DOC, DOCX files allowed"

  /** `fileFilter`: the upload goes ahead, or fails with the error. */
  function FileFilter(mimetype: string): Result<bool, string>
  {
    if mimetype in AllowedTypes then Success(true) else Failure(WrongType)
  }

  /** Exactly PDF, DOC and DOCX are accepted; every other type fails with the one message. */
  lemma FileFilterExact(mimetype: string)
    ensures FileFilter(mimetype).Success? <==>
      mimetype == "application/pdf" || mimetype == "application/msword" ||
      mimetype == "application/vnd.openxmlformats-officedocument.wordprocessingml.document"
    ensures FileFilter(mimetype).Success? ==> FileFilter(mimetype).value
    ensures FileFilter(mimetype).Failure? ==> FileFilter(mimetype).error == WrongType
  {
  }
}
